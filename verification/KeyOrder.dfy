/** The order in which JavaScript enumerates an object's members, and what sorting the keys before
    assigning them makes of it. */
module KeyOrder {
  import opened Text
  import opened Numerals
  import opened JsonText

  const INDEX_LIMIT := 0xFFFF_FFFF

  // Canonical numerals are array indexes and come first, by number.
  predicate IsIndex(k: Str) {
    (forall u | u in k :: IsDigit(u)) && k == Decimal(Number(k)) && Number(k) < INDEX_LIMIT
  }

  // The numerals of 0 up to 2^32 - 2, without leading zeros.
  lemma IndexIff(k: Str)
    ensures IsIndex(k) <==> exists n: nat | n < 4294967295 :: k == Decimal(n)
  {
    if n: nat :| n < 4294967295 && k == Decimal(n) {
      NumberOfDecimal(n);
    }
  }

  predicate Before(a: Str, b: Str) {
    if IsIndex(a) then (IsIndex(b) ==> Number(a) < Number(b)) else !IsIndex(b) && Less(a, b)
  }

  lemma BeforeIsStrict(a: Str, b: Str)
    ensures !(Before(a, b) && Before(b, a)) && !Before(a, a)
    ensures a != b ==> Before(a, b) || Before(b, a)
  {
    LessIsStrict(a, b);
  }

  predicate Enumerated(ms: seq<Member>) {
    forall i, j | 0 <= i < j < |ms| :: Before(ms[i].key, ms[j].key)
  }

  // Array indexes first, by number, then all other keys, unit by unit.
  lemma {:induction false} IndexesComeFirst(ms: seq<Member>) returns (n: nat)
    requires Enumerated(ms)
    ensures n <= |ms|
    ensures forall i | 0 <= i < |ms| :: IsIndex(ms[i].key) <==> i < n
    ensures forall i, j | 0 <= i < j < n ::
      IsIndex(ms[i].key) && IsIndex(ms[j].key) && Number(ms[i].key) < Number(ms[j].key)
    ensures forall i, j | n <= i < j < |ms| :: Less(ms[i].key, ms[j].key)
  {
    if ms == [] || !IsIndex(ms[0].key) {
      n := 0;
      assert forall j | 0 < j < |ms| :: Before(ms[0].key, ms[j].key);
    } else {
      n := IndexesComeFirst(ms[1..]);
      n := n + 1;
      assert forall i | 0 < i < |ms| :: ms[i] == ms[1..][i - 1];
      assert forall j | 0 < j < |ms| :: Before(ms[0].key, ms[j].key);
    }
  }

  predicate Ascending(ms: seq<Member>) {
    forall i, j | 0 <= i < j < |ms| :: Less(ms[i].key, ms[j].key)
  }

  predicate DistinctKeys(ms: seq<Member>) {
    forall i, j | 0 <= i < j < |ms| :: ms[i].key != ms[j].key
  }

  // ---------- the sort by key ----------

  function InsertByKey(ms: seq<Member>, m: Member): seq<Member> {
    if ms == [] || Less(m.key, ms[0].key) then [m] + ms else [ms[0]] + InsertByKey(ms[1..], m)
  }

  function SortByKey(ms: seq<Member>): seq<Member> {
    if ms == [] then [] else InsertByKey(SortByKey(ms[1..]), ms[0])
  }

  lemma {:induction false} InsertKeeps(ms: seq<Member>, m: Member, x: Member)
    ensures x in InsertByKey(ms, m) <==> x == m || x in ms
  {
    if ms != [] && !Less(m.key, ms[0].key) {
      InsertKeeps(ms[1..], m, x);
      assert ms == [ms[0]] + ms[1..];
    }
  }

  lemma {:induction false} SortKeeps(ms: seq<Member>, x: Member)
    ensures x in SortByKey(ms) <==> x in ms
  {
    if ms != [] {
      SortKeeps(ms[1..], x);
      InsertKeeps(SortByKey(ms[1..]), ms[0], x);
      assert ms == [ms[0]] + ms[1..];
    }
  }

  lemma AscendingCons(m: Member, rest: seq<Member>)
    requires Ascending(rest) && forall x | x in rest :: Less(m.key, x.key)
    ensures Ascending([m] + rest)
  {
  }

  lemma {:induction false} InsertAscends(ms: seq<Member>, m: Member)
    requires Ascending(ms) && forall x | x in ms :: x.key != m.key
    ensures Ascending(InsertByKey(ms, m))
  {
    if ms == [] {
    } else if Less(m.key, ms[0].key) {
      forall x | x in ms
        ensures Less(m.key, x.key)
      {
        if x != ms[0] {
          assert Less(ms[0].key, x.key);
          LessIsTransitive(m.key, ms[0].key, x.key);
        }
      }
      AscendingCons(m, ms);
    } else {
      InsertAscends(ms[1..], m);
      LessIsStrict(m.key, ms[0].key);
      assert ms[0] in ms;
      forall x | x in InsertByKey(ms[1..], m)
        ensures Less(ms[0].key, x.key)
      {
        InsertKeeps(ms[1..], m, x);
      }
      AscendingCons(ms[0], InsertByKey(ms[1..], m));
    }
  }

  lemma {:induction false} SortAscends(ms: seq<Member>)
    requires DistinctKeys(ms)
    ensures Ascending(SortByKey(ms))
  {
    if ms != [] {
      SortAscends(ms[1..]);
      forall x | x in SortByKey(ms[1..])
        ensures x.key != ms[0].key
      {
        SortKeeps(ms[1..], x);
      }
      InsertAscends(SortByKey(ms[1..]), ms[0]);
    }
  }

  // ---------- assigning members one after another ----------

  // The key that sets an object's prototype instead of a member.
  function ProtoKey(): Str {
    Ascii("__proto__")
  }

  // A new member: an index goes among the indexes, any other key to the end.
  function AddMember(out: seq<Member>, m: Member): seq<Member> {
    if out == [] || (IsIndex(m.key) && Before(m.key, out[0].key)) then [m] + out
    else [out[0]] + AddMember(out[1..], m)
  }

  function Assign(out: seq<Member>, m: Member): seq<Member> {
    if m.key == ProtoKey() then out else AddMember(out, m)
  }

  function Assigned(ms: seq<Member>): seq<Member>
    decreases |ms|
  {
    if ms == [] then [] else Assign(Assigned(ms[..|ms| - 1]), ms[|ms| - 1])
  }

  lemma {:induction false} AddKeeps(out: seq<Member>, m: Member, x: Member)
    ensures x in AddMember(out, m) <==> x == m || x in out
  {
    if out != [] && !(IsIndex(m.key) && Before(m.key, out[0].key)) {
      AddKeeps(out[1..], m, x);
      assert out == [out[0]] + out[1..];
    }
  }

  lemma {:induction false} AssignedKeeps(ms: seq<Member>, x: Member)
    ensures x in Assigned(ms) <==> x in ms && x.key != ProtoKey()
    decreases |ms|
  {
    if ms != [] {
      var n := |ms| - 1;
      AssignedKeeps(ms[..n], x);
      AddKeeps(Assigned(ms[..n]), ms[n], x);
      assert ms == ms[..n] + [ms[n]];
    }
  }

  lemma EnumeratedCons(m: Member, rest: seq<Member>)
    requires Enumerated(rest) && forall x | x in rest :: Before(m.key, x.key)
    ensures Enumerated([m] + rest)
  {
  }

  lemma {:induction false} BeforeThen(a: Str, b: Str, c: Str)
    requires Before(a, b) && Before(b, c)
    ensures Before(a, c)
  {
    if !IsIndex(a) && !IsIndex(c) {
      LessIsTransitive(a, b, c);
    }
  }

  // Every other key is assigned in ascending order.
  predicate ComesLast(out: seq<Member>, k: Str) {
    forall x | x in out :: x.key != k && (!IsIndex(k) ==> Before(x.key, k))
  }

  lemma {:induction false} AddEnumerates(out: seq<Member>, m: Member)
    requires Enumerated(out) && ComesLast(out, m.key)
    ensures Enumerated(AddMember(out, m))
  {
    if out == [] {
    } else if IsIndex(m.key) && Before(m.key, out[0].key) {
      forall x | x in out
        ensures Before(m.key, x.key)
      {
        if x != out[0] {
          BeforeThen(m.key, out[0].key, x.key);
        }
      }
      EnumeratedCons(m, out);
    } else {
      assert out[0] in out;
      BeforeIsStrict(m.key, out[0].key);
      AddEnumerates(out[1..], m);
      forall x | x in AddMember(out[1..], m)
        ensures Before(out[0].key, x.key)
      {
        AddKeeps(out[1..], m, x);
      }
      EnumeratedCons(out[0], AddMember(out[1..], m));
    }
  }

  lemma AscendingComesLast(out: seq<Member>, ms: seq<Member>)
    requires Ascending(ms) && ms != [] && forall x | x in out :: x in ms[..|ms| - 1]
    ensures ComesLast(out, ms[|ms| - 1].key)
  {
    var k := ms[|ms| - 1].key;
    forall x | x in out
      ensures x.key != k && (!IsIndex(k) ==> Before(x.key, k))
    {
      assert Less(x.key, k);
      LessIsStrict(x.key, k);
    }
  }

  // Assigned in ascending order, members end up as an object enumerates them.
  lemma {:induction false} AssignedEnumerates(ms: seq<Member>)
    requires Ascending(ms)
    ensures Enumerated(Assigned(ms))
    decreases |ms|
  {
    if ms != [] {
      var n := |ms| - 1;
      AssignedEnumerates(ms[..n]);
      forall x | x in Assigned(ms[..n])
        ensures x in ms[..n]
      {
        AssignedKeeps(ms[..n], x);
      }
      AscendingComesLast(Assigned(ms[..n]), ms);
      AddEnumerates(Assigned(ms[..n]), ms[n]);
    }
  }

  // Sorting and assigning keeps the members, but for one named __proto__, whatever their order.
  lemma ArrangedKeeps(ms: seq<Member>)
    requires DistinctKeys(ms)
    ensures Enumerated(Assigned(SortByKey(ms)))
    ensures forall x :: x in Assigned(SortByKey(ms)) <==> x in ms && x.key != ProtoKey()
  {
    SortAscends(ms);
    AssignedEnumerates(SortByKey(ms));
    forall x
      ensures x in Assigned(SortByKey(ms)) <==> x in ms && x.key != ProtoKey()
    {
      AssignedKeeps(SortByKey(ms), x);
      SortKeeps(ms, x);
    }
  }
}
