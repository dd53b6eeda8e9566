/** The canonical text as the bytes that are signed: half surrogate pairs are escaped in it, so
    nothing is lost. */
module CanonicalBytes {
  import opened Text
  import opened Utf8
  import opened JsonText
  import opened JsonWriting
  import opened CanonicalJson
  import opened CanonicalText

  lemma EscapedIsWhole(u: Unit)
    ensures Whole(Escaped(u))
  {
    if Letter(u) != u || u == QUOTE || u == BACKSLASH || u < 32 || IsHigh(u) || IsLow(u) {
      AsciiIsWhole(Escaped(u));
    }
  }

  lemma {:induction false} BodyIsWhole(s: Str)
    ensures Whole(Body(s))
    decreases |s|
  {
    if s != [] {
      if Step(s) == 1 {
        EscapedIsWhole(s[0]);
      }
      BodyIsWhole(s[Step(s)..]);
      WholeConcat(Chunk(s), Body(s[Step(s)..]));
    }
  }

  lemma QuotedIsWhole(s: Str)
    ensures Whole(Quoted(s))
  {
    BodyIsWhole(s);
    WholeConcat([QUOTE], Body(s));
  }

  lemma WholeCons(u: Unit, t: Str)
    requires u < 0x80 && Whole(t)
    ensures Whole([u] + t)
  {
    WholeConcat([u], t);
  }

  lemma {:induction false} TextIsWhole(v: Json)
    requires Printable(v)
    ensures Whole(Write(v))
    decreases v
  {
    match v {
      case Num(token) => AsciiIsWhole(token);
      case Text(s) => QuotedIsWhole(s);
      case Arr(items) =>
        if items != [] {
          TextIsWhole(items[0]);
          ItemsAreWhole(items[1..]);
          WholeConcat(Write(items[0]), WriteItems(items[1..]));
          WholeCons(OPEN_BRACKET, Write(items[0]) + WriteItems(items[1..]));
        }
      case Obj(members) =>
        if members != [] {
          var m := members[0];
          assert m.value < m;
          TextIsWhole(m.value);
          MembersAreWhole(members[1..]);
          MemberIsWhole(m, WriteMembers(members[1..]));
          WholeCons(OPEN_BRACE, Quoted(m.key) + ([COLON] + (Write(m.value) + WriteMembers(members[1..]))));
        }
      case _ => AsciiIsWhole(Write(v));
    }
  }

  lemma MemberIsWhole(m: Member, rest: Str)
    requires Whole(Write(m.value)) && Whole(rest)
    ensures Whole(Quoted(m.key) + ([COLON] + (Write(m.value) + rest)))
  {
    QuotedIsWhole(m.key);
    WholeConcat(Write(m.value), rest);
    WholeCons(COLON, Write(m.value) + rest);
    WholeConcat(Quoted(m.key), [COLON] + (Write(m.value) + rest));
  }

  lemma {:induction false} ItemsAreWhole(items: seq<Json>)
    requires PrintableItems(items)
    ensures Whole(WriteItems(items))
    decreases items
  {
    if items != [] {
      TextIsWhole(items[0]);
      ItemsAreWhole(items[1..]);
      WholeConcat(Write(items[0]), WriteItems(items[1..]));
      WholeCons(COMMA, Write(items[0]) + WriteItems(items[1..]));
    }
  }

  lemma {:induction false} MembersAreWhole(members: seq<Member>)
    requires PrintableMembers(members)
    ensures Whole(WriteMembers(members))
    decreases members
  {
    if members != [] {
      var m := members[0];
      assert m.value < m;
      TextIsWhole(m.value);
      MembersAreWhole(members[1..]);
      MemberIsWhole(m, WriteMembers(members[1..]));
      WholeCons(COMMA, Quoted(m.key) + ([COLON] + (Write(m.value) + WriteMembers(members[1..]))));
    }
  }

  // The signed bytes of two values are the same exactly when the values mean the same.
  lemma SignedBytesIff(a: Json, b: Json)
    requires WellFormed(a) && WellFormed(b)
    ensures Bytes(Canonical(a)) == Bytes(Canonical(b)) <==> Meaning(a) == Meaning(b)
  {
    CanonIsTidy(a);
    CanonIsTidy(b);
    TidyIsPrintable(Printed(SortDeep(a)));
    TidyIsPrintable(Printed(SortDeep(b)));
    TextIsWhole(Printed(SortDeep(a)));
    TextIsWhole(Printed(SortDeep(b)));
    WholeBytesIff(Canonical(a), Canonical(b));
    CanonicalIff(a, b);
  }
}
