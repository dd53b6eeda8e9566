/** The one-word file that names the live slot, and its two readers: the deploy hook and the
    proxy. */
module ActiveSlot {
  import opened Outcomes

  datatype Slot = A | B

  function Other(s: Slot): Slot {
    if s == A then B else A
  }

  // What command substitution does: newlines at the end go.
  function StripNewlines(t: string): string {
    if t != [] && t[|t| - 1] == '\n' then StripNewlines(t[..|t| - 1]) else t
  }

  predicate IsSpace(c: char) {
    c == ' ' || c == '\t' || c == '\n' || c == '\r' || c == '\U{000B}' || c == '\U{000C}' || c == '\U{00A0}' || c == '\U{FEFF}'
    || c == '\U{1680}' || '\U{2000}' <= c <= '\U{200A}' || c == '\U{2028}' || c == '\U{2029}' || c == '\U{202F}'
    || c == '\U{205F}' || c == '\U{3000}'
  }

  function TrimStart(t: string): string {
    if t != [] && IsSpace(t[0]) then TrimStart(t[1..]) else t
  }

  function TrimEnd(t: string): string {
    if t != [] && IsSpace(t[|t| - 1]) then TrimEnd(t[..|t| - 1]) else t
  }

  function Trim(t: string): string {
    TrimEnd(TrimStart(t))
  }

  // The slot a deploy leaves alone; a file that is not there reads as nothing.
  function Untouched(file: Option<string>): Slot {
    if file.Some? && StripNewlines(file.value) == "A" then A else B
  }

  // The slot a deploy builds into.
  function Chosen(file: Option<string>): Slot {
    if file.Some? && StripNewlines(file.value) == "A" then B else A
  }

  // The slot the proxy forwards to.
  function Live(file: Option<string>): Slot {
    if file.Some? && Trim(file.value) == "B" then B else A
  }

  function Written(s: Slot): string {
    if s == A then "A\n" else "B\n"
  }

  lemma {:induction false} StripKeepsStart(t: string)
    ensures StripNewlines(t) <= t
    ensures forall i | |StripNewlines(t)| <= i < |t| :: t[i] == '\n'
    decreases |t|
  {
    if t != [] && t[|t| - 1] == '\n' {
      StripKeepsStart(t[..|t| - 1]);
    }
  }

  lemma {:induction false} TrimEndDrops(t: string, n: nat)
    requires n <= |t| && forall i | n <= i < |t| :: IsSpace(t[i])
    ensures TrimEnd(t) == TrimEnd(t[..n])
    decreases |t|
  {
    if n < |t| {
      var front := t[..|t| - 1];
      TrimEndDrops(front, n);
      assert front[..n] == t[..n];
    } else {
      assert t[..n] == t;
    }
  }

  // Hook and proxy agree on the live slot exactly for a file that is A up to newlines after it,
  // or B up to white space around it.
  lemma ReadersAgreeIff(file: Option<string>)
    ensures Untouched(file) == Live(file) <==>
            file.Some? && (StripNewlines(file.value) == "A" || Trim(file.value) == "B")
  {
    if file.Some? && StripNewlines(file.value) == "A" {
      var t := file.value;
      StripKeepsStart(t);
      assert t[0] == 'A' && TrimStart(t) == t;
      TrimEndDrops(t, 1);
      assert t[..1] == "A";
      assert TrimEnd("A") == "A";
    }
  }

  // Everything that is ever written is read alike by both.
  lemma WrittenReads(s: Slot)
    ensures Live(Some(Written(s))) == s && Chosen(Some(Written(s))) == Other(s)
    ensures Live(Some("A")) == A && Chosen(Some("A")) == B
  {
    assert "A\n"[..1] == "A" && "B\n"[..1] == "B";
    assert TrimStart("A\n") == "A\n" && TrimStart("B\n") == "B\n";
    assert TrimEnd("A") == "A" && TrimEnd("B") == "B";
    assert StripNewlines("A") == "A" && StripNewlines("B") == "B";
    assert TrimEnd("A\n") == "A" && TrimEnd("B\n") == "B";
  }
}
