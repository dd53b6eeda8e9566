/** Splitting the storage key across mesh members and restoring it from the survivors.
    Signatures and digests are symbolic: a signature is the pair of key and signed body, a
    digest is its preimage, so both are unforgeable and injective by construction. */
module MeshShares {
  import opened Outcomes
  import opened Polynomials
  import opened Gf256
  import opened GfTables
  import opened Shamir

  type Key = string      // an owner key, named by its public part
  type Home = string

  datatype Digest = Sha256(of: seq<Byte>)

  datatype Member = Member(name: string, home: Home, index: Byte)

  datatype PolicyBody = PolicyBody(
    kind: string, subject: Option<string>, n: nat, m: nat, ownerFp: string, keySha256: Digest, members: seq<Member>)

  datatype ShareBody = ShareBody(format: string, ownerFp: string, index: Byte, subject: Option<string>, data: seq<Byte>)

  datatype Signature<+T> = Signed(signer: Key, body: T) | Unsigned

  datatype Policy = Policy(body: PolicyBody, ownerFingerprint: string, ownerKey: Key, sig: Signature<PolicyBody>)

  datatype ShareFile = Unreadable | ShareFile(body: ShareBody, sig: Signature<ShareBody>)

  // Where a share lives: the member's home, the owner's short fingerprint that names the
  // directory, and the index that names the file.
  datatype Place = Place(home: Home, ownerFp: string, index: nat)

  const FORMAT := "gitlive-share/2"

  function Fingerprint(key: Key): string {
    key
  }

  function ShortFingerprint(key: Key): string {
    if |key| <= 8 then key else key[..8]
  }

  // ---------- scanning the members' shares ----------

  datatype Finding = Missing | Forged | Valid(part: Part)

  function Inspect(files: map<Place, ShareFile>, policy: Policy, mem: Member): Finding {
    var place := Place(mem.home, policy.body.ownerFp, mem.index);
    if place !in files then Missing
    else if files[place].Unreadable? then Forged
    else
      var share := files[place].body;
      if share.format != FORMAT || share.ownerFp != policy.body.ownerFp || share.index != mem.index || share.data == []
      then Forged
      else if files[place].sig != Signed(policy.ownerKey, share) then Forged
      else Valid(Part(share.index, share.data))
  }

  function ValidParts(files: map<Place, ShareFile>, policy: Policy, members: seq<Member>): seq<Part> {
    if members == [] then []
    else
      var rest := ValidParts(files, policy, members[..|members| - 1]);
      var found := Inspect(files, policy, members[|members| - 1]);
      if found.Valid? then rest + [found.part] else rest
  }

  predicate AnyForged(files: map<Place, ShareFile>, policy: Policy, members: seq<Member>) {
    exists i | 0 <= i < |members| :: Inspect(files, policy, members[i]).Forged?
  }

  method ScanMemberShares(files: map<Place, ShareFile>, policy: Policy) returns (valid: seq<Part>, forged: seq<Member>)
    ensures valid == ValidParts(files, policy, policy.body.members)
    ensures forged != [] <==> AnyForged(files, policy, policy.body.members)
  {
    var members := policy.body.members;
    valid, forged := [], [];
    var i := 0;
    while i < |members|
      invariant i <= |members|
      invariant valid == ValidParts(files, policy, members[..i])
      invariant forged != [] <==> AnyForged(files, policy, members[..i])
    {
      var found := Inspect(files, policy, members[i]);
      assert members[..i + 1][..i] == members[..i];
      assert AnyForged(files, policy, members[..i + 1]) <==> AnyForged(files, policy, members[..i]) || found.Forged? by {
        if found.Forged? {
          assert members[..i + 1][i] == members[i];
        }
        if k :| 0 <= k < i && Inspect(files, policy, members[..i][k]).Forged? {
          assert members[..i + 1][k] == members[..i][k];
        }
      }
      if found.Forged? {
        forged := forged + [members[i]];
      } else if found.Valid? {
        valid := valid + [found.part];
      }
      i := i + 1;
    }
    assert members[..i] == members;
  }

  // ---------- restoring ----------

  datatype UnsealOutcome =
    | NoPolicy | WrongSubject | NoOwnerKey | ForeignPolicy | BadPolicySignature
    | Checked(ready: bool) | KeyPresent | ForgedShares | TooFewShares | JoinFailed | DigestMismatch
    | Restored(key: seq<Byte>)

  ghost function Unsealed(
    owner: Option<Key>, storageKey: Option<seq<Byte>>, policy: Option<Policy>, files: map<Place, ShareFile>,
    subject: Option<string>, check: bool): (outcome: UnsealOutcome)
    // Whatever is on disk, even shares of several splits: a key is written only over a missing
    // one, only from enough verified shares with no forged one among them, and it is the key
    // whose digest the policy records.
    ensures outcome.Restored? ==>
      && storageKey.None? && policy.Some? && !check
      && Sha256(outcome.key) == policy.value.body.keySha256
      && |ValidParts(files, policy.value, policy.value.body.members)| >= policy.value.body.n
      && !AnyForged(files, policy.value, policy.value.body.members)
    // The policy carries this owner's fingerprint and the signature of the key it carries.
    ensures outcome.Restored? ==>
      && owner.Some? && policy.value.ownerFingerprint == Fingerprint(owner.value)
      && policy.value.sig == Signed(policy.value.ownerKey, policy.value.body)
  {
    if policy.None? || policy.value.body.kind != "storage" then NoPolicy
    else
      var p := policy.value;
      var n := p.body.n;
      var valid := ValidParts(files, p, p.body.members);
      if subject.Some? && p.body.subject.Some? && p.body.subject != subject then WrongSubject
      else if owner.None? then NoOwnerKey
      else if p.ownerFingerprint != Fingerprint(owner.value) then ForeignPolicy
      else if p.sig != Signed(p.ownerKey, p.body) then BadPolicySignature
      else if check then Checked(|valid| >= n)
      else if storageKey.Some? then KeyPresent
      else if AnyForged(files, p, p.body.members) then ForgedShares
      else if |valid| < n then TooFewShares
      else if JoinRefused(valid[..n], n) then JoinFailed
      else
        var key := Joined(valid[..n][..n], |valid[..n][0].data|);
        if Sha256(key) != p.body.keySha256 then DigestMismatch else Restored(key)
  }

  // What a key was restored from: the policy and every share that was found.
  predicate SignedBy(key: Key, files: map<Place, ShareFile>, policy: Policy) {
    && policy.sig == Signed(key, policy.body)
    && forall mem | mem in policy.body.members && Inspect(files, policy, mem).Valid? ::
         var place := Place(mem.home, policy.body.ownerFp, mem.index);
         files[place].sig == Signed(key, files[place].body)
  }

  // The fingerprint is compared as the policy states it and the signatures are verified with the
  // key it carries, so what was restored was signed by this owner exactly when that key is the
  // owner's.
  lemma RestoredFromOwnerIff(owner: Key, storageKey: Option<seq<Byte>>, policy: Policy, files: map<Place, ShareFile>,
                             subject: Option<string>)
    requires Unsealed(Some(owner), storageKey, Some(policy), files, subject, false).Restored?
    ensures SignedBy(owner, files, policy) <==> policy.ownerKey == owner
  {
  }

  // The same files and policy under a foreign key, with this owner's fingerprint put in: the
  // outcome is what the foreign owner would get.
  lemma FingerprintDecides(owner: Key, foreign: Key, storageKey: Option<seq<Byte>>, policy: Policy,
                           files: map<Place, ShareFile>, subject: Option<string>, check: bool)
    requires policy.ownerFingerprint == Fingerprint(foreign)
    ensures Unsealed(Some(owner), storageKey, Some(policy.(ownerFingerprint := Fingerprint(owner))), files, subject, check)
         == Unsealed(Some(foreign), storageKey, Some(policy), files, subject, check)
  {
    SameParts(files, policy, policy.(ownerFingerprint := Fingerprint(owner)), policy.body.members);
  }

  lemma {:induction false} SameParts(files: map<Place, ShareFile>, p: Policy, q: Policy, members: seq<Member>)
    requires p.body == q.body && p.ownerKey == q.ownerKey
    ensures ValidParts(files, p, members) == ValidParts(files, q, members)
    ensures AnyForged(files, p, members) <==> AnyForged(files, q, members)
  {
    if members != [] {
      SameParts(files, p, q, members[..|members| - 1]);
    }
    assert forall mem :: Inspect(files, p, mem) == Inspect(files, q, mem);
  }

  // ---------- sharing ----------

  // The members that can hold a share: another home, and one that exists.
  function Eligible(nodes: seq<(string, Home)>, self: Home, existing: set<Home>): seq<(string, Home)> {
    if nodes == [] then []
    else
      var rest := Eligible(nodes[1..], self, existing);
      var home := nodes[0].1;
      if home != "" && home != self && home in existing then [nodes[0]] + rest else rest
  }

  function Min(a: int, b: int): int {
    if a < b then a else b
  }

  function Holders(chosen: seq<(string, Home)>): (ms: seq<Member>)
    requires |chosen| <= 254
    ensures |ms| == |chosen|
    ensures forall i | 0 <= i < |ms| :: ms[i] == Member(chosen[i].0, chosen[i].1, i + 1)
  {
    seq(|chosen|, i requires 0 <= i < |chosen| => Member(chosen[i].0, chosen[i].1, i + 1))
  }

  // A policy and the share files that belong to it.
  ghost predicate Holds(files: map<Place, ShareFile>, policy: Policy, mem: Member, key: seq<Byte>, noise: Noise)
    requires policy.body.n > 0
  {
    Inspect(files, policy, mem) == Valid(Part(mem.index, ShareOf(key, policy.body.n, noise, mem.index)))
  }

  ghost predicate SharedPolicy(owner: Key, policy: Policy, key: seq<Byte>) {
    && policy.ownerFingerprint == Fingerprint(owner) && policy.ownerKey == owner
    && policy.sig == Signed(owner, policy.body)
    && policy.body.kind == "storage"
    && policy.body.keySha256 == Sha256(key) && |key| == 32
    && 2 <= policy.body.n <= policy.body.m == |policy.body.members| <= 254
    && forall i | 0 <= i < |policy.body.members| :: policy.body.members[i].index == i + 1
  }

  // The share count and threshold asked for; zero stands for an absent flag.
  function ShareCount(mFlag: int, refresh: bool, previous: Option<Policy>, members: int): int {
    if mFlag != 0 then mFlag
    else Min(3, if refresh && previous.Some? && previous.value.body.m != 0 then previous.value.body.m else members)
  }

  function Threshold(nFlag: int, m: int): int {
    if nFlag != 0 then nFlag else Min(2, m)
  }

  predicate ShareRefused(owner: Option<Key>, storageKey: Option<seq<Byte>>, members: int, refreshing: bool, n: int, m: int) {
    || owner.None? || storageKey.None? || |storageKey.value| != 32
    || (!refreshing && members == 0)
    || m < 2 || m > members || n < 2 || n > m || m > 254
  }

  // What sharing does to the files of one directory: the members' shares are written, files
  // with an index outside 1 .. m are removed, and nothing else changes.
  ghost predicate OnlySharesChanged(before: map<Place, ShareFile>, after: map<Place, ShareFile>, members: seq<Member>, fp: string) {
    forall place: Place :: !IsShareOf(place, members, fp) ==>
      if InMemberDirectory(place, members, fp) && !(1 <= place.index <= |members|) then place !in after
      else (place in after <==> place in before) && (place in after ==> after[place] == before[place])
  }

  predicate IsShareOf(place: Place, members: seq<Member>, fp: string) {
    exists i | 0 <= i < |members| :: place == Place(members[i].home, fp, members[i].index)
  }

  predicate InMemberDirectory(place: Place, members: seq<Member>, fp: string) {
    exists i | 0 <= i < |members| :: place.home == members[i].home && place.ownerFp == fp
  }

  // Outside the share files themselves nothing differs.
  ghost predicate SameElsewhere(before: map<Place, ShareFile>, after: map<Place, ShareFile>, members: seq<Member>, fp: string) {
    forall place: Place :: !IsShareOf(place, members, fp) ==>
      (place in after <==> place in before) && (place in after ==> after[place] == before[place])
  }

  // Each member's share is in its place, with its index and the owner's signature.
  ghost predicate Placed(files: map<Place, ShareFile>, members: seq<Member>, fp: string, subject: Option<string>,
                         owner: Key, shares: seq<array<Byte>>)
    requires |members| == |shares|
    reads shares
  {
    forall i | 0 <= i < |members| ::
      var body := ShareBody(FORMAT, fp, members[i].index, subject, shares[i][..]);
      var place := Place(members[i].home, fp, members[i].index);
      place in files && files[place] == ShareFile(body, Signed(owner, body))
  }

  method WriteShares(files: map<Place, ShareFile>, members: seq<Member>, fp: string, subject: Option<string>,
                     owner: Key, shares: seq<array<Byte>>) returns (after: map<Place, ShareFile>)
    requires |members| == |shares|
    requires forall i | 0 <= i < |members| :: members[i].index == i + 1
    ensures Placed(after, members, fp, subject, owner, shares)
    ensures SameElsewhere(files, after, members, fp)
  {
    after := files;
    var i := 0;
    while i < |members|
      invariant i <= |members|
      invariant Placed(after, members[..i], fp, subject, owner, shares[..i])
      invariant SameElsewhere(files, after, members, fp)
    {
      var mem := members[i];
      var body := ShareBody(FORMAT, fp, mem.index, subject, shares[i][..]);
      var place := Place(mem.home, fp, mem.index);
      assert IsShareOf(place, members, fp);
      after := after[place := ShareFile(body, Signed(owner, body))];
      i := i + 1;
    }
  }

  function DropOutdated(files: map<Place, ShareFile>, members: seq<Member>, fp: string): map<Place, ShareFile> {
    map place | place in files && (InMemberDirectory(place, members, fp) ==> 1 <= place.index <= |members|) :: files[place]
  }

  // With the parts of a split written and signed by the owner, every member holds its share.
  lemma WrittenHold(written: map<Place, ShareFile>, policy: Policy, owner: Key, key: seq<Byte>, shares: seq<array<Byte>>,
                    noise: Noise)
    requires policy.body.n > 0 && policy.ownerKey == owner && key != []
    requires |shares| == |policy.body.members| <= 254
    requires forall i | 0 <= i < |shares| :: shares[i][..] == ShareOf(key, policy.body.n, noise, i + 1)
    requires forall i | 0 <= i < |policy.body.members| :: policy.body.members[i].index == i + 1
    requires Placed(written, policy.body.members, policy.body.ownerFp, policy.body.subject, owner, shares)
    ensures forall mem | mem in policy.body.members :: Holds(written, policy, mem, key, noise)
  {
  }

  // The shares written for a policy stay when the outdated files go.
  lemma KeptShares(files: map<Place, ShareFile>, written: map<Place, ShareFile>, policy: Policy, key: seq<Byte>, noise: Noise)
    requires policy.body.n > 0 && forall i | 0 <= i < |policy.body.members| :: policy.body.members[i].index == i + 1
    requires forall mem | mem in policy.body.members :: Holds(written, policy, mem, key, noise)
    requires SameElsewhere(files, written, policy.body.members, policy.body.ownerFp)
    ensures var kept := DropOutdated(written, policy.body.members, policy.body.ownerFp);
      && (forall mem | mem in policy.body.members :: Holds(kept, policy, mem, key, noise))
      && OnlySharesChanged(files, kept, policy.body.members, policy.body.ownerFp)
  {
    var kept := DropOutdated(written, policy.body.members, policy.body.ownerFp);
    forall mem | mem in policy.body.members ensures Holds(kept, policy, mem, key, noise) {
      assert Holds(written, policy, mem, key, noise);
      assert Place(mem.home, policy.body.ownerFp, mem.index) in kept;
    }
  }

  class Machine {
    var owner: Option<Key>
    var storageKey: Option<seq<Byte>>
    var policy: Option<Policy>
    var files: map<Place, ShareFile>

    method Unseal(gf: Tables, subject: Option<string>, check: bool) returns (outcome: UnsealOutcome)
      requires gf.Valid()
      modifies this
      ensures outcome == Unsealed(old(owner), old(storageKey), old(policy), old(files), subject, check)
      ensures storageKey == if outcome.Restored? then Some(outcome.key) else old(storageKey)
      ensures owner == old(owner) && policy == old(policy) && files == old(files)
    {
      if policy.None? || policy.value.body.kind != "storage" {
        return NoPolicy;
      }
      var p := policy.value;
      if subject.Some? && p.body.subject.Some? && p.body.subject != subject {
        return WrongSubject;
      }
      if owner.None? {
        return NoOwnerKey;
      }
      if p.ownerFingerprint != Fingerprint(owner.value) {
        return ForeignPolicy;
      }
      if p.sig != Signed(p.ownerKey, p.body) {
        return BadPolicySignature;
      }
      var valid, forged := ScanMemberShares(files, p);
      var ready := |valid| >= p.body.n;
      if check {
        return Checked(ready);
      }
      if storageKey.Some? {
        return KeyPresent;
      }
      if forged != [] {
        return ForgedShares;
      }
      if !ready {
        return TooFewShares;
      }
      var joined := JoinSecretBytes(gf, valid[..p.body.n], p.body.n);
      if joined.Err? {
        return JoinFailed;
      }
      if Sha256(joined.value) != p.body.keySha256 {
        return DigestMismatch;
      }
      storageKey := Some(joined.value);
      return Restored(joined.value);
    }

    method Share(gf: Tables, nodes: seq<(string, Home)>, self: Home, existing: set<Home>, refreshFlag: bool,
                 nFlag: int, mFlag: int, subject: Option<string>, noise: Noise) returns (ok: bool)
      requires gf.Valid()
      modifies this
      ensures owner == old(owner) && storageKey == old(storageKey)
      ensures var holders := Eligible(nodes, self, existing);
        var refreshing := refreshFlag && old(policy).Some?;
        var m := ShareCount(mFlag, refreshing, old(policy), |holders|);
        var n := Threshold(nFlag, m);
        && (ok <==> !ShareRefused(owner, storageKey, |holders|, refreshing, n, m))
        && (!ok ==> policy == old(policy) && files == old(files))
        && (ok ==> policy.Some? && SharedPolicy(owner.value, policy.value, storageKey.value))
        && (ok ==> policy.value.body.n == n && policy.value.body.members == Holders(holders[..m]))
        && (ok ==> policy.value.body.subject == subject && policy.value.body.ownerFp == ShortFingerprint(owner.value))
        && (ok ==> OnlySharesChanged(old(files), files, policy.value.body.members, policy.value.body.ownerFp))
      ensures ok ==> forall mem | mem in policy.value.body.members ::
        Holds(files, policy.value, mem, storageKey.value, noise)
    {
      if owner.None? || storageKey.None? || |storageKey.value| != 32 {
        return false;
      }
      var key, signer := storageKey.value, owner.value;
      var holders := Eligible(nodes, self, existing);
      var refreshing := refreshFlag && policy.Some?;
      if !refreshing && |holders| == 0 {
        return false;
      }
      var m := ShareCount(mFlag, refreshing, policy, |holders|);
      var n := Threshold(nFlag, m);
      if m < 2 || m > |holders| {
        return false;
      }
      if n < 2 || n > m {
        return false;
      }
      var shares := SplitSecretBytes(gf, key, m, n, noise);
      if shares.Err? {
        return false;
      }
      var members := Holders(holders[..m]);
      var fp := ShortFingerprint(signer);
      var body := PolicyBody("storage", subject, n, m, fp, Sha256(key), members);
      var signed := Policy(body, Fingerprint(signer), signer, Signed(signer, body));
      var written := WriteShares(files, members, fp, subject, signer, shares.value);
      var kept := DropOutdated(written, members, fp);
      WrittenHold(written, signed, signer, key, shares.value, noise);
      KeptShares(files, written, signed, key, noise);
      files := kept;
      policy := Some(signed);
      return true;
    }
  }

  // ---------- what sharing and unsealing guarantee together ----------

  function Lost(files: map<Place, ShareFile>, policy: Policy, members: seq<Member>): (lost: nat)
    ensures lost <= |members|
  {
    if members == [] then 0
    else
      Lost(files, policy, members[..|members| - 1]) +
      if Inspect(files, policy, members[|members| - 1]).Missing? then 1 else 0
  }

  // Each member's share is as it was written, or gone.
  ghost predicate Surviving(files: map<Place, ShareFile>, policy: Policy, members: seq<Member>, key: seq<Byte>, noise: Noise)
    requires policy.body.n > 0
  {
    forall i | 0 <= i < |members| ::
      Inspect(files, policy, members[i]).Missing? || Holds(files, policy, members[i], key, noise)
  }

  lemma {:induction false} SurvivingParts(files: map<Place, ShareFile>, policy: Policy, members: seq<Member>,
                                          key: seq<Byte>, noise: Noise)
    requires policy.body.n > 0 && Surviving(files, policy, members, key, noise)
    requires forall i | 0 <= i < |members| :: members[i].index == i + 1
    ensures var valid := ValidParts(files, policy, members);
      && |valid| + Lost(files, policy, members) == |members|
      && SharesOf(valid, key, policy.body.n, noise)
      && Distinct(Xs(valid)) && (forall k | 0 <= k < |valid| :: valid[k].x <= |members|)
    ensures !AnyForged(files, policy, members)
  {
    if members != [] {
      var shorter := members[..|members| - 1];
      SurvivingParts(files, policy, shorter, key, noise);
      var rest, valid := ValidParts(files, policy, shorter), ValidParts(files, policy, members);
      forall i, j | 0 <= i < j < |valid| ensures Xs(valid)[i] != Xs(valid)[j] {
        assert Xs(rest)[i] <= |shorter|;
        if j < |rest| {
          assert Xs(rest)[i] != Xs(rest)[j];
        }
      }
    }
  }

  // A shared key comes back from the survivors exactly when at most m - n shares are lost; only a
  // subject that is not the policy's, where it has one, is turned away.
  lemma ShareThenUnseal(owner: Key, policy: Policy, key: seq<Byte>, noise: Noise,
                        survivors: map<Place, ShareFile>, subject: Option<string>)
    requires SharedPolicy(owner, policy, key)
    requires Surviving(survivors, policy, policy.body.members, key, noise)
    ensures Unsealed(Some(owner), None, Some(policy), survivors, subject, false)
         == if subject.Some? && policy.body.subject.Some? && subject != policy.body.subject then WrongSubject
            else if Lost(survivors, policy, policy.body.members) <= policy.body.m - policy.body.n then Restored(key)
            else TooFewShares
  {
    var n, valid := policy.body.n, ValidParts(survivors, policy, policy.body.members);
    SurvivingParts(survivors, policy, policy.body.members, key, noise);
    if |valid| >= n {
      var chosen := valid[..n];
      assert chosen[..n] == chosen && Xs(chosen) == Xs(valid)[..n];
      SplitThenJoin(key, n, noise, chosen);
    }
  }

  // ---------- whatever is on disk ----------

  predicate IndexesDiffer(members: seq<Member>) {
    forall i, j | 0 <= i < j < |members| :: members[i].index != members[j].index
  }

  // The share is in its member's place, of the current format and this owner, not empty, signed with
  // the policy's key, and says itself which one it is.
  predicate SharesFor(files: map<Place, ShareFile>, policy: Policy, mem: Member, part: Part) {
    var place := Place(mem.home, policy.body.ownerFp, mem.index);
    && place in files && files[place].ShareFile?
    && files[place].body.format == "gitlive-share/2" && files[place].body.ownerFp == policy.body.ownerFp
    && files[place].body.index == mem.index == part.x && files[place].body.data == part.data != []
    && files[place].sig == Signed(policy.ownerKey, files[place].body)
  }

  predicate Present(files: map<Place, ShareFile>, policy: Policy, mem: Member) {
    Place(mem.home, policy.body.ownerFp, mem.index) in files
  }

  lemma InspectIs(files: map<Place, ShareFile>, policy: Policy, mem: Member)
    ensures Inspect(files, policy, mem).Missing? <==> !Present(files, policy, mem)
    ensures forall part :: Inspect(files, policy, mem) == Valid(part) <==> SharesFor(files, policy, mem, part)
  {
  }

  lemma {:induction false} FoundAreSigned(files: map<Place, ShareFile>, policy: Policy, members: seq<Member>, part: Part)
    ensures part in ValidParts(files, policy, members) <==> exists mem | mem in members :: SharesFor(files, policy, mem, part)
    decreases |members|
  {
    if members != [] {
      var n := |members| - 1;
      FoundAreSigned(files, policy, members[..n], part);
      InspectIs(files, policy, members[n]);
      assert members == members[..n] + [members[n]];
    }
  }

  // A file that is there but is not its member's share is a forgery, and nothing else is.
  lemma ForgedIff(files: map<Place, ShareFile>, policy: Policy)
    ensures AnyForged(files, policy, policy.body.members) <==>
            exists mem | mem in policy.body.members ::
              Present(files, policy, mem) && forall part :: !SharesFor(files, policy, mem, part)
  {
    var members := policy.body.members;
    forall mem ensures Inspect(files, policy, mem).Forged? <==>
      Present(files, policy, mem) && forall part :: !SharesFor(files, policy, mem, part)
    {
      InspectIs(files, policy, mem);
      var found := Inspect(files, policy, mem);
      if found.Valid? {
        assert SharesFor(files, policy, mem, found.part);
      }
    }
    if AnyForged(files, policy, members) {
      var i :| 0 <= i < |members| && Inspect(files, policy, members[i]).Forged?;
      assert members[i] in members;
    }
  }

  // Whoever wrote the files: the parts that are found have pairwise different indexes when the
  // policy's members do, so the join never skips one.
  lemma {:induction false} FoundIndexesDiffer(files: map<Place, ShareFile>, policy: Policy, members: seq<Member>)
    requires IndexesDiffer(members)
    ensures Distinct(Xs(ValidParts(files, policy, members)))
    decreases |members|
  {
    if members != [] {
      var n := |members| - 1;
      var rest, found := ValidParts(files, policy, members[..n]), Inspect(files, policy, members[n]);
      FoundIndexesDiffer(files, policy, members[..n]);
      InspectIs(files, policy, members[n]);
      if found.Valid? {
        forall k | 0 <= k < |rest| ensures rest[k].x != found.part.x {
          FoundAreSigned(files, policy, members[..n], rest[k]);
          assert rest[k] in rest;
          var mem :| mem in members[..n] && SharesFor(files, policy, mem, rest[k]);
          var j :| 0 <= j < n && members[j] == mem;
        }
        DistinctMore(rest, found.part);
      }
    }
  }

  lemma DistinctMore(rest: seq<Part>, part: Part)
    requires Distinct(Xs(rest)) && forall k | 0 <= k < |rest| :: rest[k].x != part.x
    ensures Distinct(Xs(rest + [part]))
  {
    var more := rest + [part];
    forall i, j | 0 <= i < j < |more| ensures Xs(more)[i] != Xs(more)[j] {
      if j < |rest| {
        assert Xs(rest)[i] != Xs(rest)[j];
      }
    }
  }

  // A check foretells the restoring: ready exactly when an unsealing of the lost key would give it
  // back.
  lemma CheckForetells(owner: Key, policy: Policy, key: seq<Byte>, noise: Noise, survivors: map<Place, ShareFile>,
                       subject: Option<string>, storageKey: Option<seq<Byte>>)
    requires SharedPolicy(owner, policy, key)
    requires Surviving(survivors, policy, policy.body.members, key, noise)
    ensures var checked := Unsealed(Some(owner), storageKey, Some(policy), survivors, subject, true);
      var restored := Unsealed(Some(owner), None, Some(policy), survivors, subject, false);
      && (checked == Checked(true) <==> restored == Restored(key))
      && (checked == Checked(false) <==> restored == TooFewShares)
  {
    ShareThenUnseal(owner, policy, key, noise, survivors, subject);
    SurvivingParts(survivors, policy, policy.body.members, key, noise);
  }

  // ---------- who can hold a share ----------

  // Every listed node with a home that exists and is not this machine's own, each as often as it is
  // listed, and no other.
  lemma {:induction false} EligibleIff(nodes: seq<(string, Home)>, self: Home, existing: set<Home>, node: (string, Home))
    ensures multiset(Eligible(nodes, self, existing))[node] ==
            if node.1 != "" && node.1 != self && node.1 in existing then multiset(nodes)[node] else 0
  {
    if nodes != [] {
      EligibleIff(nodes[1..], self, existing, node);
      assert nodes == [nodes[0]] + nodes[1..];
    }
  }

  // Without flags a machine with two such members or more shares two-of-two or two-of-three.
  lemma DefaultsAreAccepted(owner: Key, storageKey: seq<Byte>, members: int)
    requires |storageKey| == 32 && members >= 2
    ensures var m := ShareCount(0, false, None, members);
      var n := Threshold(0, m);
      && n == 2 && m == (if members == 2 then 2 else 3)
      && !ShareRefused(Some(owner), Some(storageKey), members, false, n, m)
  {
  }
}
