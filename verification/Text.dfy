/** JavaScript strings: sequences of UTF-16 code units, ordered unit by unit, which is what
    comparison and the default sort do. */
module Text {

  type Unit = u: nat | u < 0x1_0000

  type Str = seq<Unit>

  // A literal of ASCII characters.
  function Ascii(s: string): (r: Str)
    ensures |r| == |s|
  {
    seq(|s|, i requires 0 <= i < |s| => if s[i] as int < 128 then s[i] as int else 0)
  }

  predicate Less(a: Str, b: Str) {
    b != [] && (a == [] || a[0] < b[0] || (a[0] == b[0] && Less(a[1..], b[1..])))
  }

  lemma {:induction false} LessIsStrict(a: Str, b: Str)
    ensures !(Less(a, b) && Less(b, a))
    ensures !Less(a, a)
    ensures a != b ==> Less(a, b) || Less(b, a)
  {
    if a != [] {
      LessIsStrict(a[1..], a[1..]);
      if b != [] {
        LessIsStrict(a[1..], b[1..]);
        if a[0] == b[0] && a != b {
          assert a == [a[0]] + a[1..] && b == [b[0]] + b[1..];
        }
      }
    }
  }

  lemma {:induction false} LessIsTransitive(a: Str, b: Str, c: Str)
    requires Less(a, b) && Less(b, c)
    ensures Less(a, c)
  {
    if a != [] && a[0] == b[0] && b[0] == c[0] {
      LessIsTransitive(a[1..], b[1..], c[1..]);
    }
  }

  // At the first unit in which they differ, or the shorter one first.
  lemma {:induction false} LessIff(a: Str, b: Str)
    ensures Less(a, b) <==>
            exists n: nat | n <= |a| && n < |b| :: a[..n] == b[..n] && (n == |a| || a[n] < b[n])
    decreases |b|
  {
    if a != [] && b != [] && a[0] == b[0] {
      var c, d := a[1..], b[1..];
      LessIff(c, d);
      if n: nat :| n <= |c| && n < |d| && c[..n] == d[..n] && (n == |c| || c[n] < d[n]) {
        assert a[..n + 1] == [a[0]] + c[..n] && b[..n + 1] == [b[0]] + d[..n];
        assert a[..n + 1] == b[..n + 1] && (n + 1 == |a| || a[n + 1] < b[n + 1]);
      }
      if n: nat :| n <= |a| && n < |b| && a[..n] == b[..n] && (n == |a| || a[n] < b[n]) {
        assert c[..n - 1] == a[..n][1..] && d[..n - 1] == b[..n][1..];
        assert c[..n - 1] == d[..n - 1] && (n - 1 == |c| || c[n - 1] < d[n - 1]);
      }
    } else if Less(a, b) {
      assert a[..0] == b[..0] && (0 == |a| || a[0] < b[0]);
    } else if b != [] {
      assert a[0] > b[0];
      forall n: nat | 0 < n <= |a| && n < |b| ensures a[..n] != b[..n] {
        assert a[..n][0] != b[..n][0];
      }
    }
  }

  predicate Sorted(keys: seq<Str>) {
    forall i, j | 0 <= i < j < |keys| :: Less(keys[i], keys[j])
  }

  ghost predicate IsLeast(least: Str, keys: set<Str>) {
    least in keys && forall k | k in keys && k != least :: Less(least, k)
  }

  lemma {:induction false} LeastExists(keys: set<Str>)
    requires keys != {}
    ensures exists least :: IsLeast(least, keys)
    decreases |keys|
  {
    var k :| k in keys;
    if keys == {k} {
      assert IsLeast(k, keys);
    } else {
      LeastExists(keys - {k});
      var other :| IsLeast(other, keys - {k});
      LessIsStrict(k, other);
      var least := if Less(k, other) then k else other;
      forall x | x in keys && x != least ensures Less(least, x) {
        if x != k && x != other && Less(k, other) {
          LessIsTransitive(k, other, x);
        }
      }
      assert IsLeast(least, keys);
    }
  }

  // The keys in order.
  ghost function SortedKeys(keys: set<Str>): (r: seq<Str>)
    ensures Sorted(r) && |r| == |keys|
    ensures forall k :: k in r <==> k in keys
    decreases |keys|
  {
    if keys == {} then []
    else
      LeastExists(keys);
      var least :| IsLeast(least, keys);
      var rest := SortedKeys(keys - {least});
      assert forall i | 0 <= i < |rest| :: rest[i] in keys - {least};
      [least] + rest
  }

  // There is only one way to sort a set of keys.
  lemma {:induction false} SortedIsUnique(a: seq<Str>, b: seq<Str>)
    requires Sorted(a) && Sorted(b) && forall k :: k in a <==> k in b
    ensures a == b
  {
    assert b != [] ==> b[0] in b;
    if a != [] {
      assert a[0] in b;
      assert a[0] in a && b[0] in b;
      assert a[0] in b && b[0] in a;
      var i :| 0 <= i < |b| && b[i] == a[0];
      var j :| 0 <= j < |a| && a[j] == b[0];
      LessIsStrict(a[0], b[0]);
      assert a[0] == b[0];
      forall k ensures k in a[1..] <==> k in b[1..] {
        LessIsStrict(a[0], a[0]);
        assert k in a[1..] ==> k in a && k != a[0];
        assert k in b[1..] ==> k in b && k != b[0];
        assert k in a && k != a[0] ==> k in a[1..];
        assert k in b && k != b[0] ==> k in b[1..];
      }
      SortedIsUnique(a[1..], b[1..]);
      assert a == [a[0]] + a[1..] && b == [b[0]] + b[1..];
    }
  }
}
