/** Equal canonical text exactly for equal meaning. */
module CanonicalText {
  import opened JsonText
  import opened JsonWriting
  import opened KeyOrder
  import opened CanonicalJson

  // ---------- what is printed is tidy ----------

  predicate PrintsTidy(ms: seq<Member>) {
    forall m | m in ms :: Tidy(Printed(m.value))
  }

  lemma {:induction false} PrintedKeys(ms: seq<Member>, x: Member)
    requires x in PrintedMembers(ms)
    ensures exists m :: m in ms && m.key == x.key
  {
    if x in PrintedMembers(ms[1..]) {
      PrintedKeys(ms[1..], x);
      var m :| m in ms[1..] && m.key == x.key;
      assert m in ms;
    } else {
      assert ms[0] in ms;
    }
  }

  lemma EnumeratedRest(ms: seq<Member>)
    requires Enumerated(ms) && ms != []
    ensures Enumerated(ms[1..]) && forall m | m in ms[1..] :: Before(ms[0].key, m.key)
  {
  }

  lemma {:induction false} PrintedIsTidy(ms: seq<Member>)
    requires Enumerated(ms) && PrintsTidy(ms) && forall m | m in ms :: m.key != ProtoKey()
    ensures Enumerated(PrintedMembers(ms)) && TidyMembers(PrintedMembers(ms))
  {
    if ms != [] {
      var first, rest := ms[0], PrintedMembers(ms[1..]);
      EnumeratedRest(ms);
      assert first in ms;
      PrintedIsTidy(ms[1..]);
      if first.value == Undefined {
        assert PrintedMembers(ms) == rest;
      } else {
        var shown := Member(first.key, Printed(first.value));
        assert PrintedMembers(ms) == [shown] + rest;
        forall x | x in rest
          ensures Before(shown.key, x.key)
        {
          PrintedKeys(ms[1..], x);
        }
        EnumeratedCons(shown, rest);
        assert ([shown] + rest)[1..] == rest;
      }
    }
  }

  lemma {:induction false} CanonIsTidy(v: Json)
    requires WellFormed(v)
    ensures Tidy(Printed(SortDeep(v)))
    decreases v
  {
    match v {
      case Arr(items) => CanonItemsTidy(items);
      case Obj(members) =>
        CanonMembersTidy(members);
        ObjectIsTidy(members);
      case _ =>
    }
  }

  lemma {:induction false} CanonItemsTidy(items: seq<Json>)
    requires WellFormedItems(items)
    ensures TidyItems(PrintedItems(SortItems(items)))
    decreases items
  {
    if items != [] {
      CanonIsTidy(items[0]);
      CanonItemsTidy(items[1..]);
    }
  }

  lemma {:induction false} CanonMembersTidy(members: seq<Member>)
    requires WellFormedMembers(members)
    ensures PrintsTidy(SortMembers(members))
    decreases members
  {
    if members != [] {
      var m := members[0];
      assert m.value < m;
      CanonIsTidy(m.value);
      CanonMembersTidy(members[1..]);
    }
  }

  lemma SortedDistinct(members: seq<Member>)
    requires DistinctKeys(members)
    ensures DistinctKeys(SortMembers(members))
  {
    SortKeepsKeys(members);
  }

  lemma ObjectIsTidy(members: seq<Member>)
    requires DistinctKeys(members) && PrintsTidy(SortMembers(members))
    ensures Tidy(Printed(SortDeep(Obj(members))))
  {
    SortedDistinct(members);
    ArrangedKeeps(SortMembers(members));
    PrintedIsTidy(Assigned(SortByKey(SortMembers(members))));
  }

  // ---------- the results ----------

  lemma CanonMeaning(v: Json)
    requires WellFormed(v)
    ensures Meaning(Printed(SortDeep(v))) == Meaning(v)
  {
    PrintKeepsMeaning(SortDeep(v));
    SortKeepsMeaning(v);
  }

  // The canonical text ignores the order of keys at every depth and whatever is undefined, and
  // says all the rest: two values have the same text exactly when they have the same meaning.
  lemma CanonicalIff(a: Json, b: Json)
    requires WellFormed(a) && WellFormed(b)
    ensures Canonical(a) == Canonical(b) <==> Meaning(a) == Meaning(b)
  {
    var x, y := Printed(SortDeep(a)), Printed(SortDeep(b));
    CanonIsTidy(a);
    CanonIsTidy(b);
    CanonMeaning(a);
    CanonMeaning(b);
    TidyIsPrintable(x);
    TidyIsPrintable(y);
    if Write(x) == Write(y) {
      WriteIsInjective(x, y);
    }
    if Meaning(x) == Meaning(y) {
      OneMeaningOneValue(x, y);
    }
  }

  lemma {:induction false} MembersWellFormed(ms: seq<Member>)
    ensures WellFormedMembers(ms) <==> forall m | m in ms :: WellFormed(m.value)
  {
    if ms != [] {
      MembersWellFormed(ms[1..]);
      assert ms == [ms[0]] + ms[1..];
    }
  }

  lemma {:induction false} SortIsWellFormed(v: Json)
    requires WellFormed(v)
    ensures WellFormed(SortDeep(v))
    decreases v
  {
    match v {
      case Arr(items) => SortItemsWellFormed(items);
      case Obj(members) =>
        SortMembersWellFormed(members);
        var sorted := SortMembers(members);
        var arranged := Assigned(SortByKey(sorted));
        SortedDistinct(members);
        ArrangedKeeps(sorted);
        EnumeratedDistinct(arranged);
        MembersWellFormed(sorted);
        MembersWellFormed(arranged);
      case _ =>
    }
  }

  lemma {:induction false} SortItemsWellFormed(items: seq<Json>)
    requires WellFormedItems(items)
    ensures WellFormedItems(SortItems(items))
    decreases items
  {
    if items != [] {
      SortIsWellFormed(items[0]);
      SortItemsWellFormed(items[1..]);
    }
  }

  lemma {:induction false} SortMembersWellFormed(members: seq<Member>)
    requires WellFormedMembers(members)
    ensures WellFormedMembers(SortMembers(members))
    decreases members
  {
    if members != [] {
      var m := members[0];
      assert m.value < m;
      SortIsWellFormed(m.value);
      SortMembersWellFormed(members[1..]);
    }
  }

  // Sorting beforehand changes nothing.
  lemma SortingTwiceIsOnce(v: Json)
    requires WellFormed(v)
    ensures Canonical(SortDeep(v)) == Canonical(v)
  {
    SortIsWellFormed(v);
    SortKeepsMeaning(v);
    CanonicalIff(SortDeep(v), v);
  }
}
