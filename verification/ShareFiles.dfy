/** Share files: the header GLS1, then threshold, share count and index, one byte each, then
    the share itself. */
module ShareFiles {
  import opened Outcomes
  import opened Polynomials
  import opened Gf256
  import opened GfTables
  import opened Shamir

  // A truncated file has no threshold or index byte; the reader then sees "undefined".
  datatype FilePart = FilePart(threshold: Option<Byte>, part: Part)

  const HEADER: seq<Byte> := [0x47, 0x4c, 0x53, 0x31]

  function Encode(threshold: Byte, total: Byte, x: Byte, data: seq<Byte>): seq<Byte> {
    HEADER + [threshold, total, x] + data
  }

  function Parse(file: seq<Byte>): Result<FilePart> {
    if |file| < 4 || file[..4] != HEADER then Err("not a GLS1 share")
    else if |file| > 6 && file[6] < 1 then Err("bad share x")
    else
      var threshold := if |file| > 4 then Some(file[4]) else None;
      var x: Byte := if |file| > 6 then file[6] else 0;
      Ok(FilePart(threshold, Part(x, if |file| > 7 then file[7..] else [])))
  }

  lemma ParseEncode(threshold: Byte, total: Byte, x: Byte, data: seq<Byte>)
    requires x >= 1
    ensures Parse(Encode(threshold, total, x, data)) == Ok(FilePart(Some(threshold), Part(x, data)))
    ensures var file := Encode(threshold, total, x, data);
      && |file| == 7 + |data| && IsShareFile(file)
      && file[4] == threshold && file[5] == total && file[6] == x && file[7..] == data
  {
    var file := Encode(threshold, total, x, data);
    assert file[..4] == HEADER;
    assert file[4] == threshold && file[6] == x && file[7..] == data;
  }

  method SplitFile(gf: Tables, data: seq<Byte>, total: int, threshold: int, noise: Noise)
    returns (r: Result<seq<seq<Byte>>>)
    requires gf.Valid()
    ensures r.Err? <==> BadSplit(total, threshold)
    ensures r.Ok? ==> |r.value| == total
    ensures r.Ok? ==> forall s | 0 <= s < total ::
      r.value[s] == Encode(threshold, total, s + 1, ShareOf(data, threshold, noise, s + 1))
  {
    var shares := SplitSecretBytes(gf, data, total, threshold, noise);
    if shares.Err? {
      return Err(shares.message);
    }
    var files := [];
    while |files| < total
      invariant |files| <= total
      invariant forall s | 0 <= s < |files| ::
        files[s] == Encode(threshold, total, s + 1, ShareOf(data, threshold, noise, s + 1))
    {
      var s := |files|;
      files := files + [Encode(threshold, total, s + 1, shares.value[s][..])];
    }
    return Ok(files);
  }

  // ---------- joining ----------

  predicate AllParse(files: seq<seq<Byte>>) {
    forall k | 0 <= k < |files| :: Parse(files[k]).Ok?
  }

  function Parts(files: seq<seq<Byte>>): (parts: seq<Part>)
    requires AllParse(files)
    ensures |parts| == |files|
    ensures forall k | 0 <= k < |files| :: parts[k] == Parse(files[k]).value.part
  {
    seq(|files|, k requires 0 <= k < |files| => Parse(files[k]).value.part)
  }

  predicate OneThreshold(files: seq<seq<Byte>>)
    requires files != [] && AllParse(files)
  {
    forall k | 0 <= k < |files| :: Parse(files[k]).value.threshold == Parse(files[0]).value.threshold
  }

  // How many of the shares are used: all of them when the files carry no threshold.
  function Needed(files: seq<seq<Byte>>): nat
    requires files != [] && AllParse(files)
  {
    var t := Parse(files[0]).value.threshold;
    if t.Some? then t.value else |files|
  }

  predicate Joinable(files: seq<seq<Byte>>) {
    && files != [] && AllParse(files) && OneThreshold(files)
    && !JoinRefused(Parts(files), Needed(files))
  }

  ghost function JoinedFiles(files: seq<seq<Byte>>): seq<Byte>
    requires Joinable(files)
  {
    Joined(Parts(files)[..Needed(files)], |Parts(files)[0].data|)
  }

  method JoinFiles(gf: Tables, files: seq<seq<Byte>>) returns (r: Result<seq<Byte>>)
    requires gf.Valid()
    ensures r.Ok? <==> Joinable(files)
    ensures r.Ok? ==> r.value == JoinedFiles(files)
  {
    var parts: seq<Part> := [];
    var thresholds: seq<Option<Byte>> := [];
    while |parts| < |files|
      invariant |parts| == |thresholds| <= |files|
      invariant forall k | 0 <= k < |parts| ::
        Parse(files[k]) == Ok(FilePart(thresholds[k], parts[k]))
    {
      var p := Parse(files[|parts|]);
      if p.Err? {
        return Err(p.message);
      }
      parts, thresholds := parts + [p.value.part], thresholds + [p.value.threshold];
    }
    if parts == [] {
      return Err("cannot read properties of undefined (reading 'threshold')");
    }
    assert parts == Parts(files);
    var k := 0;
    while k < |thresholds|
      invariant k <= |thresholds| && forall j | 0 <= j < k :: thresholds[j] == thresholds[0]
    {
      if thresholds[k] != thresholds[0] {
        return Err("shares disagree on threshold");
      }
      k := k + 1;
    }
    r := JoinSecretBytes(gf, parts, if thresholds[0].Some? then thresholds[0].value else |parts|);
  }

  // ---------- files round-trip ----------

  ghost predicate FilesOf(files: seq<seq<Byte>>, xs: seq<Byte>, data: seq<Byte>, total: Byte, threshold: Byte, noise: Noise)
    requires threshold > 0
  {
    |files| == |xs| &&
    forall k | 0 <= k < |files| :: files[k] == Encode(threshold, total, xs[k], ShareOf(data, threshold, noise, xs[k]))
  }

  // Share files of one split, any subset in any order, join exactly when there are at least
  // `threshold` of them, and then they give back the file if the first `threshold` indexes
  // are pairwise different.
  lemma FilesRoundTrip(files: seq<seq<Byte>>, xs: seq<Byte>, data: seq<Byte>, total: Byte, threshold: Byte, noise: Noise)
    requires threshold > 0 && 0 !in xs && FilesOf(files, xs, data, total, threshold, noise)
    ensures Joinable(files) <==> |files| >= threshold
    ensures Joinable(files) && Distinct(xs[..threshold]) ==> JoinedFiles(files) == data
  {
    forall k | 0 <= k < |files|
      ensures Parse(files[k]) == Ok(FilePart(Some(threshold), Part(xs[k], ShareOf(data, threshold, noise, xs[k]))))
    {
      assert xs[k] in xs;
      ParseEncode(threshold, total, xs[k], ShareOf(data, threshold, noise, xs[k]));
    }
    if |files| >= threshold {
      var parts := Parts(files)[..threshold];
      assert Xs(parts) == xs[..threshold];
      if Distinct(xs[..threshold]) {
        SplitThenJoin(data, threshold, noise, parts);
      }
    }
  }

  // ---------- what joins ----------

  predicate IsShareFile(file: seq<Byte>) {
    |file| >= 4 && file[0] == 0x47 && file[1] == 0x4c && file[2] == 0x53 && file[3] == 0x31 && (|file| > 6 ==> file[6] != 0)
  }

  predicate SameThreshold(a: seq<Byte>, b: seq<Byte>) {
    (|a| > 4 <==> |b| > 4) && (|a| > 4 && |b| > 4 ==> a[4] == b[4])
  }

  function ShareLength(file: seq<Byte>): nat {
    if |file| > 7 then |file| - 7 else 0
  }

  // Files join exactly when each is a share file with an index other than zero, all with the same
  // threshold byte and as long as each other, and there are that many of them.
  lemma JoinableIff(files: seq<seq<Byte>>)
    ensures Joinable(files) <==>
            && files != []
            && (forall k | 0 <= k < |files| :: IsShareFile(files[k]))
            && (forall k | 0 <= k < |files| :: SameThreshold(files[k], files[0]))
            && (forall k | 0 <= k < |files| :: ShareLength(files[k]) == ShareLength(files[0]))
            && (|files[0]| > 4 ==> |files| >= files[0][4])
  {
    forall k | 0 <= k < |files|
      ensures Parse(files[k]).Ok? <==> IsShareFile(files[k])
      ensures Parse(files[k]).Ok? ==> |Parse(files[k]).value.part.data| == ShareLength(files[k])
      ensures Parse(files[k]).Ok? ==> Parse(files[k]).value.threshold == if |files[k]| > 4 then Some(files[k][4]) else None
    {
      ParseIff(files[k]);
    }
    if files != [] && AllParse(files) {
      assert |Parts(files)| == |files|;
      SameLengths(files);
    }
  }

  lemma ParseIff(file: seq<Byte>)
    ensures Parse(file).Ok? <==> IsShareFile(file)
    ensures Parse(file).Ok? ==> |Parse(file).value.part.data| == ShareLength(file)
    ensures Parse(file).Ok? ==> Parse(file).value.threshold == if |file| > 4 then Some(file[4]) else None
  {
    if |file| >= 4 {
      assert file[..4] == HEADER <==> file[0] == HEADER[0] && file[1] == HEADER[1] && file[2] == HEADER[2] && file[3] == HEADER[3];
    }
  }

  lemma SameLengths(files: seq<seq<Byte>>)
    requires files != [] && AllParse(files)
    ensures SameLength(Parts(files), |Parts(files)[0].data|) <==>
            forall k | 0 <= k < |files| :: ShareLength(files[k]) == ShareLength(files[0])
  {
    forall k | 0 <= k < |files| ensures |Parts(files)[k].data| == ShareLength(files[k]) {
      ParseIff(files[k]);
    }
  }
}
