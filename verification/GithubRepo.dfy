/** A remote repository as a store of files with compare-and-swap writes, and the
    read/mutate/write loop on one of them.  Paths built from keys are hashes of the key; the
    hash and the content-derived sha are symbolic, so both are injective. */
module GithubRepo {
  import opened Outcomes
  import opened Text

  datatype Digest = Sha256(of: Str)

  datatype Path = BlobPath(key: Digest) | IndexPath | UserPath(email: Digest)

  type Bytes = seq<nat>

  datatype Meta = Meta(size: nat, contentType: Option<Str>, etag: Bytes, modifiedAt: int)

  datatype File =
    | BlobDoc(key: Str, meta: Meta, bytes: Bytes)
    | IndexDoc(entries: map<Str, Meta>)
    | UserDoc(email: Str, passwordHash: Bytes, createdAt: int)

  datatype Sha = Sha(of: File)

  datatype Code = CONFLICT | AUTH_ERROR | RATE_LIMITED | INVALID_ARGS | NETWORK_ERROR | INTERNAL

  datatype Stored<+T> = Fine(value: T) | Broke(code: Code)

  const MAX_FILE_BYTES: nat := 1024 * 1024

  // The meaning of an unsuccessful HTTP status.
  function CodeForStatus(status: int, rateLimitExhausted: bool): Code {
    if status == 403 && rateLimitExhausted then RATE_LIMITED
    else if status == 401 || status == 403 then AUTH_ERROR
    else if status == 409 || status == 422 then CONFLICT
    else INTERNAL
  }

  // A stale or missing sha is a conflict, a refused token an authorisation error, unless it is the
  // rate limit that is used up, and nothing else is any of these.
  lemma CodeIff(status: int, exhausted: bool)
    ensures var code := CodeForStatus(status, exhausted);
      && (code == CONFLICT <==> status in {409, 422})
      && (code == RATE_LIMITED <==> status == 403 && exhausted)
      && (code == AUTH_ERROR <==> status == 401 || (status == 403 && !exhausted))
      && code != INVALID_ARGS && code != NETWORK_ERROR
  {
  }

  // What the application sees: only two codes are worth branching on.
  function Mapped(code: Code): Code {
    if code == CONFLICT || code == INVALID_ARGS then code else INTERNAL
  }

  // How the server answers a write: it wants the sha of the file in place, or none.
  function PutStatus(files: map<Path, File>, path: Path, sha: Option<Sha>): int {
    if path in files && sha != Some(Sha(files[path])) then 409
    else if path !in files && sha.Some? then 422
    else 200
  }

  type Mutate = Option<File> -> Option<File>

  // How a request can fail for no fault of its own; one without an answer may have been carried out.
  datatype Fault = Unanswered(applied: bool) | RateLimited | Unauthorized | ServerError

  function CodeOf(fault: Fault): Code {
    match fault
    case Unanswered(_) => NETWORK_ERROR
    case RateLimited => CodeForStatus(403, true)
    case Unauthorized => CodeForStatus(401, false)
    case ServerError => CodeForStatus(500, false)
  }

  // What another client does to the file between the read and the write of one attempt, and how
  // the two requests fail, if they do.
  datatype Change = Quiet | Leaves(file: File) | Removes
  datatype Attempt = Attempt(change: Change, read: Option<Fault>, write: Option<Fault>)

  const CALM := Attempt(Quiet, None, None)

  function AttemptAt(attempts: seq<Attempt>, k: nat): Attempt {
    if k < |attempts| then attempts[k] else CALM
  }

  class Repo {
    var files: map<Path, File>
    const jsonSize: File -> nat      // the length of a document's JSON text

    constructor (jsonSize: File -> nat)
      ensures files == map[] && this.jsonSize == jsonSize
    {
      files := map[];
      this.jsonSize := jsonSize;
    }

    method GetFileRaw(path: Path, fault: Option<Fault>) returns (r: Stored<Option<(File, Sha)>>)
      ensures r == if fault.Some? then Broke(CodeOf(fault.value))
                   else Fine(if path in files then Some((files[path], Sha(files[path]))) else None)
    {
      if fault.Some? {
        return Broke(CodeOf(fault.value));
      }
      if path !in files {
        return Fine(None);
      }
      return Fine(Some((files[path], Sha(files[path]))));
    }

    // Written exactly when the sha given is that of the file in place, or none is given and none
    // is there, and the request gets through.
    method PutFileRaw(path: Path, file: File, sha: Option<Sha>, fault: Option<Fault>) returns (r: Stored<Sha>)
      modifies this
      ensures var current := sha == if path in old(files) then Some(Sha(old(files)[path])) else None;
        && r == (if jsonSize(file) > MAX_FILE_BYTES then Broke(INVALID_ARGS)
                 else if fault.Some? then Broke(CodeOf(fault.value))
                 else if current then Fine(Sha(file))
                 else Broke(CONFLICT))
        && files == if r.Fine? || (jsonSize(file) <= MAX_FILE_BYTES && current && fault == Some(Unanswered(true)))
                    then old(files)[path := file] else old(files)
    {
      if jsonSize(file) > MAX_FILE_BYTES {
        return Broke(INVALID_ARGS);
      }
      var status := PutStatus(files, path, sha);
      if status == 200 && (fault.None? || fault == Some(Unanswered(true))) {
        files := files[path := file];
      }
      if fault.Some? {
        return Broke(CodeOf(fault.value));
      }
      if status != 200 {
        return Broke(CodeForStatus(status, false));
      }
      return Fine(Sha(file));
    }

    // Removed under the same rule; a path that is already gone is a success.
    method DeleteFileRaw(path: Path, sha: Option<Sha>, fault: Option<Fault>) returns (r: Stored<()>)
      modifies this
      ensures var current := path in old(files) && sha == Some(Sha(old(files)[path]));
        && r == (if sha.None? then Broke(INVALID_ARGS)
                 else if fault.Some? then Broke(CodeOf(fault.value))
                 else if path in old(files) && !current then Broke(CONFLICT)
                 else Fine(()))
        && files == if current && (r.Fine? || fault == Some(Unanswered(true))) then old(files) - {path} else old(files)
    {
      if sha.None? {
        return Broke(INVALID_ARGS);
      }
      var status := if path !in files then 404 else if sha != Some(Sha(files[path])) then 409 else 200;
      if status == 200 && (fault.None? || fault == Some(Unanswered(true))) {
        files := files - {path};
      }
      if fault.Some? {
        return Broke(CodeOf(fault.value));
      }
      if status == 200 || status == 404 {
        return Fine(());
      }
      return Broke(CodeForStatus(status, false));
    }

    ghost function At(path: Path): Option<File>
      reads this
    {
      if path in files then Some(files[path]) else None
    }

    method Interfere(path: Path, change: Change)
      modifies this
      ensures change.Quiet? ==> files == old(files)
      ensures At(path) == match change case Quiet => old(At(path)) case Leaves(file) => Some(file) case Removes => None
      ensures forall other | other != path :: (other in files <==> other in old(files)) &&
                (other in files ==> files[other] == old(files)[other])
    {
      match change {
        case Quiet =>
        case Leaves(file) => files := files[path := file];
        case Removes => files := files - {path};
      }
    }

    // The read/mutate/compare-and-swap loop.
    method UpsertJson(path: Path, mutate: Mutate, retries: nat, attempts: seq<Attempt>)
      returns (r: Stored<Option<File>>, ghost before: Option<File>)
      modifies this
      ensures forall other | other != path :: (other in files <==> other in old(files)) &&
                (other in files ==> files[other] == old(files)[other])
      // A returned document is the mutation of what its write replaced, or was left alone.
      ensures r.Fine? ==> At(path) == r.value
      ensures r.Fine? ==> r.value == if mutate(before).Some? then mutate(before) else before
      ensures r.Fine? && mutate(before).Some? ==> jsonSize(r.value.value) <= MAX_FILE_BYTES
      ensures r.Broke? ==> r.code == CONFLICT || r.code == INVALID_ARGS || r.code == INTERNAL
      // It gives up on conflict only after every attempt was disturbed, and fails otherwise only
      // for a document too large or a request that failed.
      ensures r == Broke(CONFLICT) ==> forall k | 0 <= k <= retries :: AttemptAt(attempts, k).change != Quiet
      ensures r == Broke(INTERNAL) ==>
                exists k | 0 <= k < |attempts| :: attempts[k].read.Some? || attempts[k].write.Some?
      ensures attempts == [] ==> before == old(At(path))
      ensures attempts == [] && r.Broke? ==> mutate(before).Some? && jsonSize(mutate(before).value) > MAX_FILE_BYTES
      ensures attempts == [] && r.Broke? ==> files == old(files)
    {
      var attempt := 0;
      before := At(path);
      while true
        invariant attempt <= retries && attempt <= |attempts|
        invariant forall k | 0 <= k < attempt :: AttemptAt(attempts, k).change != Quiet
        invariant attempt == 0 ==> files == old(files)
        invariant forall other | other != path :: (other in files <==> other in old(files)) &&
                    (other in files ==> files[other] == old(files)[other])
        decreases retries - attempt
      {
        var meets := AttemptAt(attempts, attempt);
        var existing := GetFileRaw(path, meets.read);
        if existing.Broke? {
          return Broke(Mapped(existing.code)), before;
        }
        var current := if existing.value.None? then None else Some(existing.value.value.0);
        before := At(path);
        var next := mutate(current);
        if next.None? {
          return Fine(current), before;
        }
        Interfere(path, meets.change);
        before := At(path);
        var sha := if existing.value.None? then None else Some(existing.value.value.1);
        var put := PutFileRaw(path, next.value, sha, meets.write);
        if put.Fine? {
          return Fine(next), before;
        }
        if !(put.code == CONFLICT && attempt < retries) {
          return Broke(Mapped(put.code)), before;
        }
        attempt := attempt + 1;
      }
    }
  }
}
