/** How long a signed statement is and how it opens, and so which of the other
    byte strings the same keys sign can never be taken for one: the bare
    key-wrap key of a household, envelopes, dicts signed without a domain, and
    every text under a domain of its own. */
module StatementShapes {
  import opened Octets
  import opened CanonicalJson
  import opened JsonText
  import opened SignedStatements

  /** Raw Ed25519 and X25519 public keys. */
  const KEY_BYTES := 32

  /** A statement under a domain of its own, and longer than a bare key. */
  predicate StandsAlone(sp: Spelling, t: Statement) {
    && WellFormed(t) && !(t.Record? && t.domain.MomentWire?)
    && SigningBytes(sp, t).Some? && |SigningBytes(sp, t).value| > KEY_BYTES
  }

  /** How a prefixed JSON body opens. */
  function JsonOpening(d: Domain): bytes { Utf8(Prefix(d) + "{") }

  predicate OpensAsTag(b: bytes, tag: string) { Encodable(Utf8(tag)) && Lv(Utf8(tag)) <= b }

  /** `b` opens as statements under a domain of their own do. */
  ghost predicate OpensAsStatement(b: bytes) {
    || (exists d: Domain :: !d.MomentWire? && JsonOpening(d) <= b)
    || OpensAsTag(b, USER_IDENTITY_TAG) || OpensAsTag(b, MOVE_USER_TAG) || OpensAsTag(b, MOVE_RELEASE_TAG)
    || [1] <= b
  }

  /** Bytes that no statement standing alone is signed as: a key's length and
      below, or opening otherwise. */
  ghost predicate Foreign(b: bytes) { |b| <= KEY_BYTES || !OpensAsStatement(b) }

  // ------------------------------------------------------------------ openings

  lemma JsonOpens(d: Domain, body: seq<Member>)
    ensures JsonOpening(d) <= JsonSigned(d, body)
  {
    ObjectTextStart(body, FormOf(d));
    PrefixedOpens(Prefix(d), CanonicalStr(Obj(body), FormOf(d)));
  }

  lemma PrefixedOpens(prefix: string, text: string)
    requires text != "" && text[0] == '{'
    ensures Utf8(prefix + "{") <= Utf8(prefix) + Utf8(text)
  {
    hide Utf8;
    assert text == "{" + text[1..];
    Utf8Concat("{", text[1..]);
    Utf8Concat(prefix, "{");
    assert Utf8(prefix) + Utf8(text) == Utf8(prefix + "{") + Utf8(text[1..]);
  }

  lemma TaggedOpens(sp: Spelling, t: Statement)
    requires IsTagged(t) && SigningBytes(sp, t).Some?
    ensures OpensAsTag(SigningBytes(sp, t).value, TagOf(t))
  {
    hide Utf8;
    TagComesFirst(t);
    TaggedSigned(sp, t, TaggedFields(t));
    assert Encodable(TaggedFields(t)[0]);
  }

  lemma StandingOpens(sp: Spelling, t: Statement)
    requires StandsAlone(sp, t)
    ensures OpensAsStatement(SigningBytes(sp, t).value)
  {
    hide Utf8, Prefix, JsonOpening, OpensAsTag;
    if IsJson(t) {
      JsonOpens(JsonDomain(t), JsonBody(sp, t));
      assert !JsonDomain(t).MomentWire?;
    } else if IsTagged(t) {
      TaggedOpens(sp, t);
    } else {
      RecordFirst(sp, t);
    }
  }

  /** Foreign bytes are no statement that stands alone. */
  lemma {:induction false} ForeignIsNoStatement(sp: Spelling, b: bytes, t: Statement)
    requires Foreign(b) && StandsAlone(sp, t)
    ensures SigningBytes(sp, t) != Some(b)
  {
    StandingOpens(sp, t);
  }

  /** A dict signed as its bare JSON text, as envelopes are, is foreign. */
  lemma ObjectTextIsForeign(text: string)
    requires text != "" && text[0] == '{'
    ensures Foreign(Utf8(text))
  {
    hide OpensAsStatement;
    if OpensAsStatement(Utf8(text)) {
      StatementsOpenLow(Utf8(text));
    }
  }

  /** No domain, tag or binding mark starts with a brace. */
  lemma {:induction false} StatementsOpenLow(b: bytes)
    requires OpensAsStatement(b)
    ensures b != [] && b[0] < '{' as int
  {
    hide Utf8, JsonOpening, OpensAsTag;
    if d: Domain :| !d.MomentWire? && JsonOpening(d) <= b {
      DomainOpensLow(d);
    } else {
      TagOpensLow(b, USER_IDENTITY_TAG);
      TagOpensLow(b, MOVE_USER_TAG);
      TagOpensLow(b, MOVE_RELEASE_TAG);
    }
  }

  lemma DomainOpensLow(d: Domain)
    requires !d.MomentWire?
    ensures JsonOpening(d) != [] && JsonOpening(d)[0] < '{' as int
  {
    assert Prefix(d) != "";
    PrefixStart(d);
  }

  lemma TagOpensLow(b: bytes, tag: string)
    requires |tag| < 100
    ensures OpensAsTag(b, tag) ==> b != [] && b[0] == 0
  {
    Utf8Length(tag);
    if OpensAsTag(b, tag) {
      assert Lv(Utf8(tag))[0] == 0;
    }
  }

  // ------------------------------------------------------------------- lengths

  lemma {:induction false} Utf8Grows(s: string)
    ensures |Utf8(s)| >= |s|
  {
    if s != [] {
      Utf8Grows(s[1..]);
    }
  }

  lemma {:induction false} CharsGrow(s: string, form: Form)
    ensures |CharsText(s, form)| >= |s|
  {
    if s != [] {
      assert |CharText(s[0], form)| >= 1;
      CharsGrow(s[1..], form);
    }
  }

  /** What the keys of a dict take up in its text, with their punctuation. */
  function KeyWeight(ms: seq<Member>): nat {
    if ms == [] then 0 else |ms[0].key| + 5 + KeyWeight(ms[1..])
  }

  lemma MemberWeighs(m: Member, form: Form)
    ensures |MemberText(m, form)| >= |m.key| + 4
  {
    CharsGrow(m.key, form);
  }

  lemma {:induction false} MembersWeigh(ms: seq<Member>, form: Form)
    ensures |MembersText(ms, form)| >= 1 + KeyWeight(ms)
  {
    if ms != [] {
      MemberWeighs(ms[0], form);
      MembersWeigh(ms[1..], form);
    }
  }

  lemma ObjectWeighs(ms: seq<Member>, form: Form)
    ensures |Text(Obj(ms), form)| >= 1 + KeyWeight(ms)
  {
    if ms != [] {
      MemberWeighs(ms[0], form);
      MembersWeigh(ms[1..], form);
    }
  }

  lemma {:induction false} InsertWeighs(m: Member, ms: seq<Member>)
    ensures KeyWeight(Insert(m, ms)) == |m.key| + 5 + KeyWeight(ms)
  {
    if ms != [] && !Less(m.key, ms[0].key) {
      InsertWeighs(m, ms[1..]);
    }
  }

  lemma {:induction false} SortWeighs(ms: seq<Member>)
    ensures KeyWeight(Sort(ms)) == KeyWeight(ms)
  {
    if ms != [] {
      SortWeighs(ms[1..]);
      InsertWeighs(ms[0], Sort(ms[1..]));
    }
  }

  lemma {:induction false} SortedMembersWeigh(ms: seq<Member>)
    ensures KeyWeight(SortedMembers(ms)) == KeyWeight(ms)
  {
    if ms != [] {
      SortedMembersWeigh(ms[1..]);
    }
  }

  lemma {:induction false} EveryMemberWeighs(ms: seq<Member>)
    ensures KeyWeight(ms) >= 5 * |ms|
  {
    if ms != [] {
      EveryMemberWeighs(ms[1..]);
    }
  }

  /** A signed dict is at least as long as its prefix and its keys. */
  lemma JsonSignedWeighs(d: Domain, body: seq<Member>)
    ensures |JsonSigned(d, body)| >= |Prefix(d)| + 1 + KeyWeight(body)
  {
    hide Prefix;
    SortedMembersWeigh(body);
    SortWeighs(SortedMembers(body));
    ObjectWeighs(Sort(SortedMembers(body)), FormOf(d));
    Utf8Grows(CanonicalStr(Obj(body), FormOf(d)));
    Utf8Grows(Prefix(d));
  }

  lemma {:induction false} RecordWeighs(fields: seq<bytes>)
    requires AllEncodable(fields)
    ensures |LvAll(fields)| >= 4 * |fields|
    ensures fields != [] ==> |LvAll(fields)| >= 4 * |fields| + |fields[0]|
    ensures |fields| >= 2 ==> |LvAll(fields)| >= 4 * |fields| + |fields[0]| + |fields[1]|
  {
    if fields != [] {
      RecordWeighs(fields[1..]);
    }
  }

  // ---------------------------------------------------------- what stands alone

  /** Every consent, release and self-signed identity stands alone. */
  lemma TaggedStandsAlone(sp: Spelling, t: Statement)
    requires IsTagged(t) && SigningBytes(sp, t).Some?
    ensures StandsAlone(sp, t)
  {
    hide Utf8;
    TagComesFirst(t);
    TaggedSigned(sp, t, TaggedFields(t));
    RecordWeighs(TaggedFields(t));
    Utf8Grows(TagOf(t));
    assert |TaggedFields(t)| >= 6;
  }

  /** So does an assertion whose ids take a dozen bytes, as every assertion
      over a derived household id does. */
  lemma AssertionStandsAlone(sp: Spelling, a: AssertionTerms)
    requires AssertionSigned(a).Some?
    ensures |AssertionSigned(a).value| >= 21 + |Utf8(a.userId)| + |Utf8(a.instanceId)|
    ensures |Utf8(a.userId)| + |Utf8(a.instanceId)| > 11 ==> StandsAlone(sp, UserAssertion(a))
  {
    hide Utf8;
    RecordWeighs(AssertionFields(a));
    assert |AssertionFields(a)| >= 5;
  }

  /** A dict with its prefix and its keys beyond the length of a key. */
  lemma DictStandsAlone(sp: Spelling, t: Statement)
    requires WellFormed(t) && IsJson(t) && !JsonDomain(t).MomentWire?
    requires |Prefix(JsonDomain(t))| + KeyWeight(JsonBody(sp, t)) >= KEY_BYTES
    ensures StandsAlone(sp, t)
  {
    JsonSignedWeighs(JsonDomain(t), JsonBody(sp, t));
  }

  lemma PrefixLength(d: Domain)
    ensures !d.MomentWire? ==> |Prefix(d)| >= 13
    ensures IsChannelDomain(d) ==> |Prefix(d)| >= 20
  {
  }

  /** Every JSON statement with fields of its own stands alone. */
  lemma FixedDictStandsAlone(sp: Spelling, t: Statement)
    requires WellFormed(t) && IsJson(t) && !t.Record?
    ensures StandsAlone(sp, t)
  {
    hide Prefix;
    PrefixLength(JsonDomain(t));
    var body := JsonBody(sp, t);
    EveryMemberWeighs(body);
    if t.Moment? {
      assert |body| >= 6;
    }
    DictStandsAlone(sp, t);
  }

  // --------------------------------------------------- statements a key's size

  /** MAIN: what the bare key a household signs (its 32-byte key-wrap key) can
      be mistaken for. Nothing but a dict signed with few and short keys, or
      an assertion, unbound and without an anchor, whose ids are at most
      eleven bytes together; no derived id is that short. */
  lemma {:induction false} WhatABareKeyCanBe(sp: Spelling, key: bytes, t: Statement)
    requires |key| == KEY_BYTES && WellFormed(t) && SigningBytes(sp, t) == Some(key)
    ensures t.Record? || t.UserAssertion?
    ensures t.Record? ==> |Prefix(t.domain)| + KeyWeight(JsonBody(sp, t)) < KEY_BYTES
    ensures t.UserAssertion? ==>
      t.assertion.userKey.None? && t.assertion.anchor.None?
        && |Utf8(t.assertion.userId)| + |Utf8(t.assertion.instanceId)| <= 11
  {
    hide Prefix, KeyWeight, Utf8, JsonSigned, IsData, TaggedFields, AssertionFields;
    if IsTagged(t) {
      TaggedStandsAlone(sp, t);
    } else if t.Record? {
      JsonSignedWeighs(t.domain, JsonBody(sp, t));
    } else if IsJson(t) {
      FixedDictStandsAlone(sp, t);
    } else {
      AssertionStandsAlone(sp, t.assertion);
      if t.assertion.userKey.Some? || t.assertion.anchor.Some? {
        BoundIsLong(t.assertion);
      }
    }
  }

  lemma BoundIsLong(a: AssertionTerms)
    requires AssertionSigned(a).Some? && (a.userKey.Some? || a.anchor.Some?)
    ensures |AssertionSigned(a).value| > KEY_BYTES
  {
    hide Utf8;
    Utf8Grows("user-binding");
    Utf8Grows("identity-anchor");
    var f := AssertionFields(a);
    assert f[5] == Utf8("user-binding") || f[5] == Utf8("identity-anchor");
    LongTail(f, 5);
  }

  lemma LongTail(fields: seq<bytes>, n: nat)
    requires AllEncodable(fields) && n + 2 <= |fields|
    ensures |LvAll(fields)| >= 4 * |fields| + |fields[n]|
  {
    assert fields == fields[..n] + fields[n..];
    LvAllConcat(fields[..n], fields[n..]);
    RecordWeighs(fields[..n]);
    RecordWeighs(fields[n..]);
  }

  /** Both are there: a dict without a domain and a nameless assertion that
      sign as 32 bytes. */
  lemma KeySizedStatements(sp: Spelling)
    ensures var t := Record(MomentWire, [Member("a", Str("xxxxxxxxxxxxxxxxxxxxxxxx"))]);
      WellFormed(t) && SigningBytes(sp, t).Some? && |SigningBytes(sp, t).value| == KEY_BYTES
    ensures var t := UserAssertion(AssertionTerms("", "", "", "xxxxxxxxxxx", "", None, None, None));
      WellFormed(t) && SigningBytes(sp, t).Some? && |SigningBytes(sp, t).value| == KEY_BYTES
  {
    WireOfAKeysSize(sp);
    AssertionOfAKeysSize(sp);
  }

  predicate IsLower(s: string) { forall i :: 0 <= i < |s| ==> 'a' <= s[i] <= 'z' }

  lemma WireOfAKeysSize(sp: Spelling)
    ensures var t := Record(MomentWire, [Member("a", Str("xxxxxxxxxxxxxxxxxxxxxxxx"))]);
      WellFormed(t) && SigningBytes(sp, t).Some? && |SigningBytes(sp, t).value| == KEY_BYTES
  {
    assert "a" != "signature" && |"a"| == 1 && |"xxxxxxxxxxxxxxxxxxxxxxxx"| == 24;
    OneRowSigned(sp, "a", "xxxxxxxxxxxxxxxxxxxxxxxx");
  }

  lemma OneRowSigned(sp: Spelling, k: string, x: string)
    requires IsLower(k) && IsLower(x) && k != "signature"
    ensures var t := Record(MomentWire, [Member(k, Str(x))]);
      WellFormed(t) && SigningBytes(sp, t).Some? && |SigningBytes(sp, t).value| == |k| + |x| + 7
  {
    hide CanonicalStr, Utf8;
    var t := Record(MomentWire, [Member(k, Str(x))]);
    assert t.dict[1..] == [] && Without(t.dict, {"signature"}) == t.dict;
    OneRow(k, x);
    Utf8OfAscii(CanonicalStr(Obj(t.dict), Ascii));
    Utf8OfAscii("");
    assert IsData(Str(x)) && WellFormed(t);
    assert JsonBody(sp, t) == t.dict && Prefix(MomentWire) == "" && FormOf(MomentWire) == Ascii;
    assert SigningBytes(sp, t) == Some(Utf8("") + Utf8(CanonicalStr(Obj(t.dict), Ascii)));
  }

  /** The text of a dict of one plain row. */
  function RowText(k: string, x: string): (r: string)
    requires IsLower(k) && IsLower(x)
    ensures IsAscii(r) && |r| == |k| + |x| + 7
  {
    "{" + ("\"" + k + "\"" + ":" + ("\"" + x + "\"")) + "}"
  }

  lemma OneRow(k: string, x: string)
    requires IsLower(k) && IsLower(x)
    ensures CanonicalStr(Obj([Member(k, Str(x))]), Ascii) == RowText(k, x)
  {
    hide CharsText, CharText, IsLower, IsAscii;
    var ms := [Member(k, Str(x))];
    OneRowSorted(ms, k, x);
    PlainChars(x, Ascii);
    PlainChars(k, Ascii);
    assert MemberText(ms[0], Ascii) == "\"" + k + "\"" + ":" + ("\"" + x + "\"");
    assert ms[1..] == [] && MembersText(ms[1..], Ascii) == "}";
  }

  lemma OneRowSorted(ms: seq<Member>, k: string, x: string)
    requires ms == [Member(k, Str(x))]
    ensures Sorted(Obj(ms)) == Obj(ms)
  {
    assert ms[1..] == [];
    assert SortedMembers([]) == [] && Sorted(Str(x)) == Str(x);
    assert SortedMembers(ms) == ms;
    assert Sort([]) == [] && Sort(ms) == Insert(ms[0], []) == ms;
  }

  lemma {:induction false} PlainChars(s: string, form: Form)
    requires IsLower(s)
    ensures CharsText(s, form) == s
  {
    if s != [] {
      PlainChars(s[1..], form);
    }
  }

  lemma AssertionOfAKeysSize(sp: Spelling)
    ensures var t := UserAssertion(AssertionTerms("", "", "", "xxxxxxxxxxx", "", None, None, None));
      WellFormed(t) && SigningBytes(sp, t).Some? && |SigningBytes(sp, t).value| == KEY_BYTES
  {
    hide Utf8;
    Utf8OfAscii("xxxxxxxxxxx");
    Utf8OfAscii("");
    FiveFields([], [], [], Utf8("xxxxxxxxxxx"), []);
    assert AssertionFields(AssertionTerms("", "", "", "xxxxxxxxxxx", "", None, None, None))
      == [Utf8(""), Utf8(""), Utf8(""), Utf8("xxxxxxxxxxx"), Utf8("")];
  }

  lemma FiveFields(a: bytes, b: bytes, c: bytes, d: bytes, e: bytes)
    requires AllEncodable([a, b, c, d, e])
    ensures |LvAll([a, b, c, d, e])| == 20 + |a| + |b| + |c| + |d| + |e|
  {
    var f := [a, b, c, d, e];
    assert f[1..] == [b, c, d, e] && f[1..][1..] == [c, d, e] && [c, d, e][1..] == [d, e] && [d, e][1..] == [e];
    assert [e][1..] == [];
    assert |LvAll([e])| == 4 + |e|;
    assert |LvAll([d, e])| == 8 + |d| + |e|;
    assert |LvAll([c, d, e])| == 12 + |c| + |d| + |e|;
  }
}
