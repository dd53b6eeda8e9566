/** Signing a manifest and verifying it later from its file, where keys may come in any order. */
module SignedManifest {
  import opened Outcomes
  import opened Text
  import opened Utf8
  import opened JsonText
  import opened KeyOrder
  import opened CanonicalJson
  import CanonicalBytes

  function SignatureKey(): Str {
    Ascii("signature")
  }

  function FormatKey(): Str {
    Ascii("format")
  }

  function OwnerKey(): Str {
    Ascii("owner")
  }

  function FingerprintKey(): Str {
    Ascii("fingerprint")
  }

  function PublicKeyKey(): Str {
    Ascii("publicKey")
  }

  function Format(): Str {
    Ascii("gitlive-app-manifest/1")
  }

  // A key of an object is set where it is, or at the end.
  function WithMember(ms: seq<Member>, key: Str, value: Json): seq<Member> {
    if ms == [] then [Member(key, value)]
    else if ms[0].key == key then [Member(key, value)] + ms[1..]
    else [ms[0]] + WithMember(ms[1..], key, value)
  }

  // The manifest with its signature undefined, which is what the signature is checked against.
  function Unsigned(ms: seq<Member>): seq<Member> {
    WithMember(ms, SignatureKey(), Undefined)
  }

  function SignedBytes(body: seq<Member>): seq<nat> {
    Bytes(Canonical(Obj(body)))
  }

  function Build(body: seq<Member>, sign: seq<nat> -> Str): seq<Member> {
    body + [Member(SignatureKey(), Text(sign(SignedBytes(body))))]
  }

  // The value of a member; undefined when there is none.
  function Field(ms: seq<Member>, key: Str): Json {
    if ms == [] then Undefined else if ms[0].key == key then ms[0].value else Field(ms[1..], key)
  }

  function FieldOf(v: Json, key: Str): Json {
    if v.Obj? then Field(v.members, key) else Undefined
  }

  predicate Truthy(v: Json) {
    match v
    case Null => false
    case Undefined => false
    case Bool(b) => b
    case Num(token) => token != Ascii("0")
    case Text(s) => s != []
    case _ => true
  }

  // ---------- verification ----------

  // The keys' side: whether a signature is one of these bytes under a key, a key's fingerprint if
  // it is a key at all, and a value as upper-case text.
  datatype Scheme = Scheme(
    check: (Json, seq<nat>, Str) -> bool, fingerprint: Json -> Option<Str>, shown: Json -> Str)

  datatype Problem = WrongFormat | NotSigned | NoOwner | BadSignature | WrongFingerprint | NotPinned

  datatype Report = Report(problems: seq<Problem>, fingerprint: Option<Str>, pinned: bool)

  predicate HasFormat(ms: seq<Member>) {
    Field(ms, FormatKey()) == Text(Format())
  }

  predicate IsSigned(ms: seq<Member>) {
    Field(ms, SignatureKey()).Text? && Field(ms, SignatureKey()).s != []
  }

  function OwnerField(ms: seq<Member>, key: Str): Json {
    FieldOf(Field(ms, OwnerKey()), key)
  }

  predicate HasOwner(ms: seq<Member>) {
    Truthy(OwnerField(ms, PublicKeyKey())) && Truthy(OwnerField(ms, FingerprintKey()))
  }

  predicate Complete(ms: seq<Member>) {
    HasFormat(ms) && IsSigned(ms) && HasOwner(ms)
  }

  predicate SignatureHolds(ms: seq<Member>, scheme: Scheme) {
    IsSigned(ms) && scheme.check(OwnerField(ms, PublicKeyKey()), SignedBytes(Unsigned(ms)), Field(ms, SignatureKey()).s)
  }

  function Fingerprint(ms: seq<Member>, scheme: Scheme): Option<Str> {
    scheme.fingerprint(OwnerField(ms, PublicKeyKey()))
  }

  predicate NamesItsKey(ms: seq<Member>, scheme: Scheme) {
    Fingerprint(ms, scheme) == Some(scheme.shown(OwnerField(ms, FingerprintKey())))
  }

  predicate Accepted(ms: seq<Member>, scheme: Scheme, pin: Option<Str>) {
    && Complete(ms) && SignatureHolds(ms, scheme) && NamesItsKey(ms, scheme)
    && (pin.Some? ==> pin == Fingerprint(ms, scheme))
  }

  // The report, or nothing when the owner's key cannot be read, which the code does not catch.
  method VerifyManifest(ms: seq<Member>, scheme: Scheme, pin: Option<Str>) returns (r: Option<Report>)
    ensures r.None? <==> Complete(ms) && Fingerprint(ms, scheme).None?
    ensures r.Some? ==> (r.value.problems == [] <==> Accepted(ms, scheme, pin))
    ensures r.Some? && !Complete(ms) ==>
      && (WrongFormat in r.value.problems <==> !HasFormat(ms))
      && (NotSigned in r.value.problems <==> !IsSigned(ms))
      && (NoOwner in r.value.problems <==> !HasOwner(ms))
      && r.value.fingerprint.None? && !r.value.pinned
    ensures r.Some? && Complete(ms) ==>
      && (BadSignature in r.value.problems <==> !SignatureHolds(ms, scheme))
      && (WrongFingerprint in r.value.problems <==> !NamesItsKey(ms, scheme))
      && (NotPinned in r.value.problems <==> pin.Some? && pin != Fingerprint(ms, scheme))
      && r.value.fingerprint == Fingerprint(ms, scheme) && r.value.pinned == pin.Some?
  {
    var problems := [];
    if Field(ms, FormatKey()) != Text(Format()) {
      problems := problems + [WrongFormat];
    }
    var signature := Field(ms, SignatureKey());
    if !Truthy(signature) || !signature.Text? {
      problems := problems + [NotSigned];
    }
    if !Truthy(OwnerField(ms, PublicKeyKey())) || !Truthy(OwnerField(ms, FingerprintKey())) {
      problems := problems + [NoOwner];
    }
    if problems != [] {
      return Some(Report(problems, None, false));
    }
    var key := OwnerField(ms, PublicKeyKey());
    var signatureValid := scheme.check(key, SignedBytes(Unsigned(ms)), signature.s);
    var fp := scheme.fingerprint(key);
    if fp.None? {
      return None;
    }
    var fpMatches := fp.value == scheme.shown(OwnerField(ms, FingerprintKey()));
    if !signatureValid {
      problems := problems + [BadSignature];
    }
    if !fpMatches {
      problems := problems + [WrongFingerprint];
    }
    if pin.Some? && pin.value != fp.value {
      problems := problems + [NotPinned];
    }
    r := Some(Report(problems, fp, pin.Some?));
  }

  // ---------- what dropping the signature leaves ----------

  // Setting a member to undefined takes it out of what is said, and brings in no other key.
  lemma {:induction false} WithoutMember(ms: seq<Member>, key: Str)
    requires WellFormedMembers(ms) && DistinctKeys(ms)
    ensures var u := WithMember(ms, key, Undefined);
      && WellFormedMembers(u) && DistinctKeys(u)
      && (forall x | x in u :: x.key == key || exists m | m in ms :: m.key == x.key)
      && MemberMeanings(u) == MemberMeanings(ms) - {key}
  {
    if ms != [] {
      var m, rest := ms[0], ms[1..];
      RestDistinct(ms);
      WithoutMember(rest, key);
      assert ms == [m] + rest;
      if m.key == key {
        FirstUndefined(key, rest);
        FirstDropped(m, rest);
      } else {
        FirstKept(m, rest, WithMember(rest, key, Undefined), key);
      }
    }
  }

  lemma FirstUndefined(key: Str, rest: seq<Member>)
    requires WellFormedMembers(rest) && DistinctKeys(rest) && forall x | x in rest :: x.key != key
    ensures var u := [Member(key, Undefined)] + rest;
      WellFormedMembers(u) && DistinctKeys(u) && MemberMeanings(u) == MemberMeanings(rest)
  {
    assert ([Member(key, Undefined)] + rest)[1..] == rest;
  }

  lemma FirstDropped(m: Member, rest: seq<Member>)
    requires forall x | x in rest :: x.key != m.key
    ensures MemberMeanings([m] + rest) - {m.key} == MemberMeanings(rest)
  {
    assert ([m] + rest)[1..] == rest;
    KeysAreSaid(rest, m.key);
  }

  lemma FirstKept(m: Member, rest: seq<Member>, u: seq<Member>, key: Str)
    requires m.key != key && WellFormed(m.value) && WellFormedMembers(u) && DistinctKeys(u)
    requires forall x | x in rest :: x.key != m.key
    requires forall x | x in u :: x.key == key || exists y | y in rest :: y.key == x.key
    requires MemberMeanings(u) == MemberMeanings(rest) - {key}
    ensures WellFormedMembers([m] + u) && DistinctKeys([m] + u)
    ensures MemberMeanings([m] + u) == MemberMeanings([m] + rest) - {key}
  {
    assert ([m] + u)[1..] == u && ([m] + rest)[1..] == rest;
  }

  lemma UnsignedMeaning(ms: seq<Member>)
    requires WellFormed(Obj(ms))
    ensures WellFormed(Obj(Unsigned(ms)))
    ensures MemberMeanings(Unsigned(ms)) == MemberMeanings(ms) - {SignatureKey()}
  {
    WithoutMember(ms, SignatureKey());
  }

  // ---------- the results ----------

  predicate HasNoSignature(ms: seq<Member>) {
    forall m | m in ms :: m.key != SignatureKey()
  }

  lemma {:induction false} AppendedMeaning(ms: seq<Member>, m: Member)
    requires WellFormedMembers(ms) && WellFormed(m.value) && Says(m)
    requires DistinctKeys(ms) && forall x | x in ms :: x.key != m.key
    ensures WellFormedMembers(ms + [m]) && DistinctKeys(ms + [m])
    ensures MemberMeanings(ms + [m]) == MemberMeanings(ms)[m.key := Meaning(m.value)]
  {
    if ms == [] {
      assert [] + [m] == [m] && [m][1..] == [];
    } else {
      RestDistinct(ms);
      AppendedMeaning(ms[1..], m);
      assert (ms + [m])[0] == ms[0] && (ms + [m])[1..] == ms[1..] + [m];
      assert ms[0] in ms;
    }
  }

  lemma BuiltMeaning(body: seq<Member>, sign: seq<nat> -> Str)
    requires WellFormed(Obj(body)) && HasNoSignature(body)
    ensures WellFormed(Obj(Build(body, sign)))
    ensures MemberMeanings(Build(body, sign)) == MemberMeanings(body)[SignatureKey() := VText(sign(SignedBytes(body)))]
  {
    KeysDiffer();
    AppendedMeaning(body, Member(SignatureKey(), Text(sign(SignedBytes(body)))));
  }

  lemma KeysDiffer()
    ensures SignatureKey() != ProtoKey()
  {
    assert SignatureKey()[0] == 115 && ProtoKey()[0] == 95;
  }

  // A manifest read back with the same meaning, its keys in any order, is checked against the
  // very bytes that were signed.
  lemma VerificationRecomputes(body: seq<Member>, sign: seq<nat> -> Str, read: seq<Member>)
    requires WellFormed(Obj(body)) && HasNoSignature(body) && WellFormed(Obj(read))
    requires Meaning(Obj(read)) == Meaning(Obj(Build(body, sign)))
    ensures SignedBytes(Unsigned(read)) == SignedBytes(body)
  {
    BuiltMeaning(body, sign);
    UnsignedMeaning(read);
    KeysAreSaid(body, SignatureKey());
    assert MemberMeanings(Unsigned(read)) == MemberMeanings(body);
    CanonicalBytes.SignedBytesIff(Obj(Unsigned(read)), Obj(body));
  }

  // Whatever is checked against those bytes says what was signed, its signature aside.
  lemma SameBytesSayTheSame(body: seq<Member>, read: seq<Member>)
    requires WellFormed(Obj(body)) && HasNoSignature(body) && WellFormed(Obj(read))
    ensures SignedBytes(Unsigned(read)) == SignedBytes(body) <==>
            MemberMeanings(read) - {SignatureKey()} == MemberMeanings(body)
  {
    UnsignedMeaning(read);
    CanonicalBytes.SignedBytesIff(Obj(Unsigned(read)), Obj(body));
  }

  // ---------- what is read from a member ----------

  lemma {:induction false} FieldIsSaid(ms: seq<Member>, key: Str)
    requires DistinctKeys(ms) && key != ProtoKey()
    ensures Field(ms, key) == Undefined <==> key !in MemberMeanings(ms)
    ensures key in MemberMeanings(ms) ==> MemberMeanings(ms)[key] == Meaning(Field(ms, key))
  {
    if ms != [] {
      RestDistinct(ms);
      FieldIsSaid(ms[1..], key);
      KeysAreSaid(ms[1..], key);
      KeysAreSaid(ms, key);
      assert ms == [ms[0]] + ms[1..];
      if Says(ms[0]) {
        MemberIsSaid(ms, ms[0]);
      }
    }
  }

  lemma TextIsSaid(v: Json, s: Str)
    ensures Meaning(v) == VText(s) <==> v == Text(s)
  {
  }

  lemma {:induction false} FieldIsWellFormed(ms: seq<Member>, key: Str)
    requires WellFormedMembers(ms)
    ensures WellFormed(Field(ms, key))
  {
    if ms != [] {
      FieldIsWellFormed(ms[1..], key);
    }
  }

  // Members of an object that means this text have it.
  lemma TextField(v: Json, key: Str, s: Str, said: map<Str, Value>)
    requires WellFormed(v) && key != ProtoKey() && Meaning(v) == VObj(said)
    requires key in said && said[key] == VText(s)
    ensures FieldOf(v, key) == Text(s)
  {
    FieldIsSaid(v.members, key);
    TextIsSaid(FieldOf(v, key), s);
  }

  // ---------- built manifests are accepted ----------

  function OwnerBlock(pem: Str, fp: Str): Json {
    Obj([Member(FingerprintKey(), Text(fp)), Member(PublicKeyKey(), Text(pem))])
  }

  predicate OwnedBy(body: seq<Member>, pem: Str, fp: Str) {
    && pem != [] && fp != [] && HasFormat(body)
    && Field(body, OwnerKey()) == OwnerBlock(pem, fp)
  }

  lemma KeysApart()
    ensures FormatKey() != SignatureKey() && OwnerKey() != SignatureKey() && FingerprintKey() != PublicKeyKey()
    ensures ProtoKey() !in {FormatKey(), OwnerKey(), SignatureKey(), FingerprintKey(), PublicKeyKey()}
  {
    assert SignatureKey()[0] == 115 && FormatKey()[0] == 102 && OwnerKey()[0] == 111;
    assert FingerprintKey()[0] == 102 && PublicKeyKey()[0] == 112 && ProtoKey()[0] == 95;
  }

  lemma OwnerBlockSays(pem: Str, fp: Str)
    ensures Meaning(OwnerBlock(pem, fp)) == VObj(map[FingerprintKey() := VText(fp), PublicKeyKey() := VText(pem)])
  {
    KeysApart();
    var first, last := Member(FingerprintKey(), Text(fp)), Member(PublicKeyKey(), Text(pem));
    SaysFirst(last, []);
    SaysFirst(first, [last]);
    assert [first, last] == [first] + [last] && [last] + [] == [last];
    assert MemberMeanings([first, last])
        == map[PublicKeyKey() := VText(pem)][FingerprintKey() := VText(fp)];
  }

  lemma SaysFirst(m: Member, rest: seq<Member>)
    requires Says(m)
    ensures MemberMeanings([m] + rest) == MemberMeanings(rest)[m.key := Meaning(m.value)]
  {
    assert ([m] + rest)[1..] == rest;
  }

  // What was built is read back with its format, owner and signature.
  lemma ReadsBack(body: seq<Member>, sign: seq<nat> -> Str, read: seq<Member>, pem: Str, fp: Str)
    requires WellFormed(Obj(body)) && HasNoSignature(body) && WellFormed(Obj(read)) && OwnedBy(body, pem, fp)
    requires Meaning(Obj(read)) == Meaning(Obj(Build(body, sign)))
    ensures HasFormat(read) && Field(read, SignatureKey()) == Text(sign(SignedBytes(body)))
    ensures OwnerField(read, PublicKeyKey()) == Text(pem) && OwnerField(read, FingerprintKey()) == Text(fp)
  {
    KeysApart();
    BuiltMeaning(body, sign);
    FieldIsSaid(body, FormatKey());
    FieldIsSaid(body, OwnerKey());
    var said := MemberMeanings(read);
    TextField(Obj(read), FormatKey(), Format(), said);
    TextField(Obj(read), SignatureKey(), sign(SignedBytes(body)), said);
    FieldIsSaid(read, OwnerKey());
    FieldIsWellFormed(read, OwnerKey());
    OwnerReadsBack(Field(read, OwnerKey()), pem, fp);
  }

  lemma OwnerReadsBack(owner: Json, pem: Str, fp: Str)
    requires WellFormed(owner) && Meaning(owner) == Meaning(OwnerBlock(pem, fp))
    ensures FieldOf(owner, PublicKeyKey()) == Text(pem) && FieldOf(owner, FingerprintKey()) == Text(fp)
  {
    KeysApart();
    OwnerBlockSays(pem, fp);
    var said := map[FingerprintKey() := VText(fp), PublicKeyKey() := VText(pem)];
    TextField(owner, PublicKeyKey(), pem, said);
    TextField(owner, FingerprintKey(), fp, said);
  }

  lemma AcceptedUnderPin(ms: seq<Member>, scheme: Scheme, pem: Str, fp: Str, sig: Str, pin: Option<Str>)
    requires HasFormat(ms) && Field(ms, SignatureKey()) == Text(sig) && sig != [] && pem != [] && fp != []
    requires OwnerField(ms, PublicKeyKey()) == Text(pem) && OwnerField(ms, FingerprintKey()) == Text(fp)
    requires scheme.fingerprint(Text(pem)) == Some(fp) && scheme.shown(Text(fp)) == fp
    requires scheme.check(Text(pem), SignedBytes(Unsigned(ms)), sig)
    ensures Accepted(ms, scheme, pin) <==> pin.None? || pin == Some(fp)
  {
  }

  // A manifest that was built and read back is accepted, except under a pin of another key.
  lemma BuiltVerifies(body: seq<Member>, sign: seq<nat> -> Str, scheme: Scheme, pem: Str, fp: Str, read: seq<Member>,
                      pin: Option<Str>)
    requires WellFormed(Obj(body)) && HasNoSignature(body) && WellFormed(Obj(read)) && OwnedBy(body, pem, fp)
    requires scheme.fingerprint(Text(pem)) == Some(fp) && scheme.shown(Text(fp)) == fp
    requires forall data :: scheme.check(Text(pem), data, sign(data)) && sign(data) != []
    requires Meaning(Obj(read)) == Meaning(Obj(Build(body, sign)))
    ensures Accepted(read, scheme, pin) <==> pin.None? || pin == Some(fp)
  {
    ReadsBack(body, sign, read, pem, fp);
    VerificationRecomputes(body, sign, read);
    AcceptedUnderPin(read, scheme, pem, fp, sign(SignedBytes(body)), pin);
  }

  // The JSON values that do not count as being there.
  const FALSY: set<Json> := {Null, Undefined, Bool(false), Num([48]), Text([])}

  lemma TruthyIff(v: Json)
    ensures Truthy(v) <==> v !in FALSY
  {
    assert Ascii("0") == [48];
  }

  // What an accepted manifest says: the format, an owner whose key can be read and who is named by
  // that key's own fingerprint, and a signature of everything else by that key.
  lemma AcceptedSays(ms: seq<Member>, scheme: Scheme, pin: Option<Str>)
    requires WellFormed(Obj(ms)) && Accepted(ms, scheme, pin)
    ensures var said := MemberMeanings(ms);
      && FormatKey() in said && said[FormatKey()] == VText(Ascii("gitlive-app-manifest/1"))
      && OwnerKey() in said && said[OwnerKey()].VObj? && SignatureKey() in said && said[SignatureKey()].VText?
      && exists key, named: Json | key !in FALSY && named !in FALSY
           && PublicKeyKey() in said[OwnerKey()].members && Meaning(key) == said[OwnerKey()].members[PublicKeyKey()]
           && FingerprintKey() in said[OwnerKey()].members && Meaning(named) == said[OwnerKey()].members[FingerprintKey()] ::
           && scheme.fingerprint(key) == Some(scheme.shown(named))
           && scheme.check(key, SignedBytes(Unsigned(ms)), said[SignatureKey()].s)
  {
    KeysApart();
    var owner := Field(ms, OwnerKey());
    FieldIsSaid(ms, FormatKey());
    FieldIsSaid(ms, OwnerKey());
    FieldIsSaid(ms, SignatureKey());
    FieldIsWellFormed(ms, OwnerKey());
    FieldIsSaid(owner.members, PublicKeyKey());
    FieldIsSaid(owner.members, FingerprintKey());
    TruthyIff(OwnerField(ms, PublicKeyKey()));
    TruthyIff(OwnerField(ms, FingerprintKey()));
  }

  // ---------- and nothing else is ----------

  ghost predicate SignedAmong(bodies: seq<seq<Member>>, data: seq<nat>) {
    exists i | 0 <= i < |bodies| :: SignedBytes(bodies[i]) == data
  }

  // Under every key with this fingerprint only these bodies have signatures.
  ghost predicate OnlySigned(scheme: Scheme, fp: Str, bodies: seq<seq<Member>>) {
    forall key, data, sig | scheme.fingerprint(key) == Some(fp) && scheme.check(key, data, sig) :: SignedAmong(bodies, data)
  }

  // What is accepted under the owner's pin says what one of the owner's manifests said.
  lemma AcceptedWasSigned(scheme: Scheme, fp: Str, bodies: seq<seq<Member>>, read: seq<Member>)
    requires forall i | 0 <= i < |bodies| :: WellFormed(Obj(bodies[i])) && HasNoSignature(bodies[i])
    requires OnlySigned(scheme, fp, bodies)
    requires WellFormed(Obj(read)) && Accepted(read, scheme, Some(fp))
    ensures exists i | 0 <= i < |bodies| :: MemberMeanings(read) - {SignatureKey()} == MemberMeanings(bodies[i])
  {
    assert SignedAmong(bodies, SignedBytes(Unsigned(read)));
    var i :| 0 <= i < |bodies| && SignedBytes(bodies[i]) == SignedBytes(Unsigned(read));
    SameBytesSayTheSame(bodies[i], read);
  }
}
