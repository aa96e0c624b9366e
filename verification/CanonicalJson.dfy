/** The one encoding every signature and digest covers: sorted keys and compact
    separators, in ASCII (`canonical_str`) or raw UTF-8 (`canonical_utf8_str`).
    The insertion order of a dict is visible to nobody but the printer, which
    must hide it. */
module CanonicalJson {
  import opened Octets
  import opened JsonText

  // ------------------------------------------------------------ sorted keys

  /** Python's order on `str`: by code point. */
  predicate Less(a: string, b: string) {
    if b == [] then false
    else if a == [] then true
    else a[0] < b[0] || (a[0] == b[0] && Less(a[1..], b[1..]))
  }

  function Insert(m: Member, ms: seq<Member>): seq<Member> {
    if ms == [] || Less(m.key, ms[0].key) then [m] + ms else [ms[0]] + Insert(m, ms[1..])
  }

  function Sort(ms: seq<Member>): seq<Member> {
    if ms == [] then [] else Insert(ms[0], Sort(ms[1..]))
  }

  /** `sort_keys=True`, at every depth. */
  function Sorted(v: Json): Json
    decreases v, 1
  {
    match v
    case Arr(items) => Arr(SortedItems(items))
    case Obj(ms) => Obj(Sort(SortedMembers(ms)))
    case _ => v
  }

  function SortedItems(items: seq<Json>): (r: seq<Json>)
    ensures |r| == |items|
    decreases items, 0
  {
    if items == [] then [] else [Sorted(items[0])] + SortedItems(items[1..])
  }

  function SortedMembers(ms: seq<Member>): (r: seq<Member>)
    ensures |r| == |ms|
    decreases ms, 0
  {
    if ms == [] then [] else [Member(ms[0].key, Sorted(ms[0].value))] + SortedMembers(ms[1..])
  }

  /** `canonical_str` / `canonical_utf8_str`. */
  function CanonicalStr(v: Json, form: Form): string { Text(Sorted(v), form) }

  /** `canonical_bytes` / `canonical_utf8_bytes`. */
  function CanonicalBytes(v: Json, form: Form): bytes { Utf8(CanonicalStr(v, form)) }

  // ------------------------------------------------- what a value is, as data

  predicate AllDiffer(ts: seq<string>) { forall i, j :: 0 <= i < j < |ts| ==> ts[i] != ts[j] }

  predicate DistinctKeys(ms: seq<Member>) {
    forall i, j :: 0 <= i < j < |ms| ==> ms[i].key != ms[j].key
  }

  /** Every object in `v` is a dict: no key twice. */
  predicate IsData(v: Json) {
    match v
    case Arr(items) => forall i :: 0 <= i < |items| ==> IsData(items[i])
    case Obj(ms) => DistinctKeys(ms) && forall i :: 0 <= i < |ms| ==> IsData(ms[i].value)
    case _ => true
  }

  predicate SameMember(m: Member, n: Member)
    decreases m, 0
  {
    m.key == n.key && Same(m.value, n.value)
  }

  predicate AmongRight(m: Member, b: seq<Member>)
    decreases m, 1
  {
    exists j :: 0 <= j < |b| && SameMember(m, b[j])
  }

  predicate AmongLeft(a: seq<Member>, n: Member)
    decreases a, 0
  {
    exists i :: 0 <= i < |a| && SameMember(a[i], n)
  }

  /** The same JSON data: the same kind of value, lists by position, dicts by
      key, whatever order the keys were inserted in. Unlike Python's `==` it
      tells `true` from `1`, as their texts do. */
  predicate Same(v: Json, w: Json)
    decreases v, 2
  {
    match (v, w)
    case (Arr(a), Arr(b)) => |a| == |b| && forall i :: 0 <= i < |a| ==> Same(a[i], b[i])
    case (Obj(a), Obj(b)) =>
      && (forall i :: 0 <= i < |a| ==> AmongRight(a[i], b))
      && (forall j :: 0 <= j < |b| ==> AmongLeft(a, b[j]))
    case _ => v == w
  }

  // ------------------------------------------------------------ key ordering

  lemma {:induction false} LessIsStrict(a: string, b: string)
    requires Less(a, b)
    ensures a != b && !Less(b, a)
  {
    if a != [] && a[0] == b[0] {
      LessIsStrict(a[1..], b[1..]);
    }
  }

  lemma {:induction false} LessIsTotal(a: string, b: string)
    ensures a == b || Less(a, b) || Less(b, a)
  {
    if a != [] && b != [] && a[0] == b[0] {
      LessIsTotal(a[1..], b[1..]);
      assert a == [a[0]] + a[1..] && b == [b[0]] + b[1..];
    }
  }

  lemma {:induction false} LessIsTransitive(a: string, b: string, c: string)
    requires Less(a, b) && Less(b, c)
    ensures Less(a, c)
  {
    if a != [] && a[0] == b[0] && b[0] == c[0] {
      LessIsTransitive(a[1..], b[1..], c[1..]);
    }
  }

  ghost predicate Ascending(ms: seq<Member>) {
    forall i, j :: 0 <= i < j < |ms| ==> Less(ms[i].key, ms[j].key)
  }

  lemma {:induction false} InsertKeepsAscending(m: Member, ms: seq<Member>)
    requires Ascending(ms)
    requires forall i :: 0 <= i < |ms| ==> ms[i].key != m.key
    ensures Ascending(Insert(m, ms))
    ensures multiset(Insert(m, ms)) == multiset(ms) + multiset{m}
  {
    if ms == [] {
    } else if Less(m.key, ms[0].key) {
      forall j | 0 < j < |ms| ensures Less(m.key, ms[j].key) {
        LessIsTransitive(m.key, ms[0].key, ms[j].key);
      }
    } else {
      LessIsTotal(m.key, ms[0].key);
      InsertKeepsAscending(m, ms[1..]);
      var r := Insert(m, ms[1..]);
      assert ms == [ms[0]] + ms[1..];
      forall j | 0 <= j < |r| ensures Less(ms[0].key, r[j].key) {
        assert r[j] in multiset(r);
        if r[j] != m {
          assert r[j] in multiset(ms[1..]);
          assert r[j] in ms[1..];
        }
      }
    }
  }

  /** Sorting only reorders, and puts the keys in ascending order. */
  lemma {:induction false} SortAscends(ms: seq<Member>)
    requires DistinctKeys(ms)
    ensures Ascending(Sort(ms))
    ensures multiset(Sort(ms)) == multiset(ms)
  {
    if ms != [] {
      SortAscends(ms[1..]);
      assert ms == [ms[0]] + ms[1..];
      var r := Sort(ms[1..]);
      forall i | 0 <= i < |r| ensures r[i].key != ms[0].key {
        assert r[i] in multiset(r);
        assert r[i] in ms[1..];
      }
      InsertKeepsAscending(ms[0], r);
    }
  }

  /** An ascending list is determined by which members it holds. */
  lemma {:induction false} AscendingUnique(a: seq<Member>, b: seq<Member>)
    requires Ascending(a) && Ascending(b)
    requires forall m :: m in a <==> m in b
    ensures a == b
  {
    if a == [] && b != [] {
      HeadIsMember(b);
    } else if a != [] {
      HeadIsMember(a);
      assert b[0] in a;
      var i :| 0 <= i < |a| && a[i] == b[0];
      if i > 0 {
        LessIsStrict(a[0].key, a[i].key);
      }
      assert a[0] == b[0];
      forall m ensures m in a[1..] <==> m in b[1..] {
        TailMembership(a, m);
        TailMembership(b, m);
      }
      AscendingUnique(a[1..], b[1..]);
      assert a == [a[0]] + a[1..] && b == [b[0]] + b[1..];
    }
  }

  lemma HeadIsMember(a: seq<Member>)
    requires a != []
    ensures a[0] in a
  {
  }

  lemma TailMembership(a: seq<Member>, m: Member)
    requires a != [] && Ascending(a)
    ensures m in a[1..] <==> m in a && m != a[0]
  {
    forall k | 0 < k < |a| ensures a[k] != a[0] {
      LessIsStrict(a[0].key, a[k].key);
    }
    if m in a && m != a[0] {
      var k :| 0 <= k < |a| && a[k] == m;
      assert a[1..][k - 1] == m;
    }
  }

  lemma {:induction false} SortedMembersAt(ms: seq<Member>, i: nat)
    requires i < |ms|
    ensures SortedMembers(ms)[i] == Member(ms[i].key, Sorted(ms[i].value))
  {
    if i > 0 {
      SortedMembersAt(ms[1..], i - 1);
    }
  }

  lemma {:induction false} SortedItemsAt(items: seq<Json>, i: nat)
    requires i < |items|
    ensures SortedItems(items)[i] == Sorted(items[i])
  {
    if i > 0 {
      SortedItemsAt(items[1..], i - 1);
    }
  }

  lemma SortedMembersDistinct(ms: seq<Member>)
    requires DistinctKeys(ms)
    ensures DistinctKeys(SortedMembers(ms))
  {
    forall i, j | 0 <= i < j < |ms| ensures SortedMembers(ms)[i].key != SortedMembers(ms)[j].key {
      SortedMembersAt(ms, i);
      SortedMembersAt(ms, j);
    }
  }

  lemma MemberOfSort(ms: seq<Member>, m: Member)
    requires DistinctKeys(ms)
    ensures m in Sort(ms) <==> m in ms
  {
    SortAscends(ms);
    assert m in Sort(ms) <==> m in multiset(Sort(ms));
    assert m in ms <==> m in multiset(ms);
  }

  /** Two values sort to the same form exactly when they are the same data. */
  lemma {:induction false} SortedFaithful(v: Json, w: Json)
    requires IsData(v) && IsData(w)
    ensures Sorted(v) == Sorted(w) <==> Same(v, w)
    decreases v
  {
    match (v, w)
    case (Arr(a), Arr(b)) =>
      if |a| == |b| {
        forall i | 0 <= i < |a| ensures SortedItems(a)[i] == SortedItems(b)[i] <==> Same(a[i], b[i]) {
          SortedItemsAt(a, i);
          SortedItemsAt(b, i);
          SortedFaithful(a[i], b[i]);
        }
      }
    case (Obj(a), Obj(b)) =>
      forall i, j | 0 <= i < |a| && 0 <= j < |b|
        ensures SortedMembers(a)[i] == SortedMembers(b)[j] <==> SameMember(a[i], b[j])
      {
        SortedMembersAt(a, i);
        SortedMembersAt(b, j);
        SortedFaithful(a[i].value, b[j].value);
      }
      SortedObjectsFaithful(a, b);
    case _ =>
  }

  lemma {:induction false} SortedObjectsFaithful(a: seq<Member>, b: seq<Member>)
    requires DistinctKeys(a) && DistinctKeys(b)
    requires forall i, j :: 0 <= i < |a| && 0 <= j < |b| ==>
      (SortedMembers(a)[i] == SortedMembers(b)[j] <==> SameMember(a[i], b[j]))
    ensures Sorted(Obj(a)) == Sorted(Obj(b)) <==> Same(Obj(a), Obj(b))
  {
    var x, y := SortedMembers(a), SortedMembers(b);
    SortedMembersDistinct(a);
    SortedMembersDistinct(b);
    SameSortedMembers(x, y);
    SameMembersOf(a, b, x, y);
  }

  lemma {:induction false} SameSortedMembers(x: seq<Member>, y: seq<Member>)
    requires DistinctKeys(x) && DistinctKeys(y)
    ensures Sort(x) == Sort(y) <==> SubsetOf(x, y) && SubsetOf(y, x)
  {
    SortAscends(x);
    SortAscends(y);
    forall m ensures (m in Sort(x) <==> m in x) && (m in Sort(y) <==> m in y) {
      MemberOfSort(x, m);
      MemberOfSort(y, m);
    }
    if SubsetOf(x, y) && SubsetOf(y, x) {
      AscendingUnique(Sort(x), Sort(y));
    }
  }

  ghost predicate Matches(a: seq<Member>, b: seq<Member>, x: seq<Member>, y: seq<Member>) {
    && |x| == |a| && |y| == |b|
    && forall i, j :: 0 <= i < |a| && 0 <= j < |b| ==> (x[i] == y[j] <==> SameMember(a[i], b[j]))
  }

  ghost predicate SubsetOf(x: seq<Member>, y: seq<Member>) { forall i :: 0 <= i < |x| ==> x[i] in y }

  lemma SameMembersOf(a: seq<Member>, b: seq<Member>, x: seq<Member>, y: seq<Member>)
    requires Matches(a, b, x, y)
    ensures SubsetOf(x, y) && SubsetOf(y, x) <==> Same(Obj(a), Obj(b))
  {
    hide SameMember;
    forall i | 0 <= i < |a| ensures AmongRight(a[i], b) <==> x[i] in y {
      if j :| 0 <= j < |b| && SameMember(a[i], b[j]) {
        assert y[j] == x[i];
      }
      if j :| 0 <= j < |y| && y[j] == x[i] {
        assert SameMember(a[i], b[j]);
      }
    }
    forall j | 0 <= j < |b| ensures AmongLeft(a, b[j]) <==> y[j] in x {
      if i :| 0 <= i < |a| && SameMember(a[i], b[j]) {
        assert x[i] == y[j];
      }
      if i :| 0 <= i < |x| && x[i] == y[j] {
        assert SameMember(a[i], b[j]);
      }
    }
    hide AmongRight, AmongLeft;
  }

  /** Sorting the keys changes no data. */
  lemma {:induction false} SortedIsSame(v: Json)
    requires IsData(v)
    ensures Same(v, Sorted(v))
    decreases v
  {
    match v
    case Arr(items) =>
      forall i | 0 <= i < |items| ensures Same(items[i], SortedItems(items)[i]) {
        SortedItemsAt(items, i);
        SortedIsSame(items[i]);
      }
    case Obj(ms) =>
      var x := SortedMembers(ms);
      forall i | 0 <= i < |ms| ensures SameMember(ms[i], x[i]) {
        SortedMembersAt(ms, i);
        SortedIsSame(ms[i].value);
      }
      SortedMembersDistinct(ms);
      SameShuffled(ms, x, Sort(x));
    case _ =>
  }

  lemma AscendingDistinct(ms: seq<Member>)
    requires Ascending(ms)
    ensures DistinctKeys(ms)
  {
    forall i, j | 0 <= i < j < |ms| ensures ms[i].key != ms[j].key {
      LessIsStrict(ms[i].key, ms[j].key);
    }
  }

  lemma {:induction false} SortedIsData(v: Json)
    requires IsData(v)
    ensures IsData(Sorted(v))
    decreases v
  {
    match v
    case Arr(items) =>
      forall i | 0 <= i < |items| ensures IsData(SortedItems(items)[i]) {
        SortedItemsAt(items, i);
        SortedIsData(items[i]);
      }
    case Obj(ms) =>
      var x := SortedMembers(ms);
      SortedMembersDistinct(ms);
      SortAscends(x);
      AscendingDistinct(Sort(x));
      forall j | 0 <= j < |Sort(x)| ensures IsData(Sort(x)[j].value) {
        MemberOfSort(x, Sort(x)[j]);
        var i :| 0 <= i < |x| && x[i] == Sort(x)[j];
        SortedMembersAt(ms, i);
        SortedIsData(ms[i].value);
      }
    case _ =>
  }

  lemma SameShuffled(ms: seq<Member>, x: seq<Member>, y: seq<Member>)
    requires |x| == |ms| && forall i :: 0 <= i < |ms| ==> SameMember(ms[i], x[i])
    requires y == Sort(x) && DistinctKeys(x)
    ensures Same(Obj(ms), Obj(y))
  {
    forall i | 0 <= i < |ms| ensures AmongRight(ms[i], y) {
      MemberOfSort(x, x[i]);
      var j :| 0 <= j < |y| && y[j] == x[i];
      assert SameMember(ms[i], y[j]);
    }
    forall j | 0 <= j < |y| ensures AmongLeft(ms, y[j]) {
      MemberOfSort(x, y[j]);
      var i :| 0 <= i < |x| && x[i] == y[j];
      assert SameMember(ms[i], y[j]);
    }
  }

  // ------------------------------------------------------- the main theorems

  /** The printer is faithful: the same bytes if and only if the same data.
      Read from right to left, any insertion order of the keys of any nested
      object gives the same bytes; from left to right, one byte string is one
      value. */
  lemma CanonicalBytesFaithful(v: Json, w: Json, form: Form)
    requires IsData(v) && IsData(w)
    ensures CanonicalBytes(v, form) == CanonicalBytes(w, form) <==> Same(v, w)
  {
    SortedFaithful(v, w);
    if CanonicalBytes(v, form) == CanonicalBytes(w, form) {
      Utf8PrefixCode(CanonicalStr(v, form), CanonicalStr(w, form));
      ParseOfText(Sorted(v), form);
      ParseOfText(Sorted(w), form);
    }
  }

  lemma {:induction false} CharsAscii(s: string)
    ensures IsAscii(CharsText(s, Ascii))
  {
    if s != [] {
      assert IsAscii(CharText(s[0], Ascii));
      CharsAscii(s[1..]);
    }
  }

  lemma {:induction false} NatAscii(n: nat)
    ensures IsAscii(NatText(n))
    decreases n
  {
    if n >= 10 {
      NatAscii(n / 10);
    }
  }

  lemma {:induction false} TextAscii(v: Json)
    ensures IsAscii(Text(v, Ascii))
    decreases v, 1
  {
    match v
    case Int(n) => NatAscii(if n < 0 then -n else n);
    case Str(s) => CharsAscii(s);
    case Arr(items) =>
      if items != [] {
        TextAscii(items[0]);
        ItemsAscii(items[1..]);
      }
    case Obj(ms) =>
      if ms != [] {
        MemberAscii(ms[0]);
        MembersAscii(ms[1..]);
      }
    case _ =>
  }

  lemma {:induction false} ItemsAscii(items: seq<Json>)
    ensures IsAscii(ItemsText(items, Ascii))
    decreases items, 0
  {
    if items != [] {
      TextAscii(items[0]);
      ItemsAscii(items[1..]);
    }
  }

  lemma {:induction false} MemberAscii(m: Member)
    ensures IsAscii(MemberText(m, Ascii))
    decreases m, 0
  {
    CharsAscii(m.key);
    TextAscii(m.value);
  }

  lemma {:induction false} MembersAscii(ms: seq<Member>)
    ensures IsAscii(MembersText(ms, Ascii))
    decreases ms, 0
  {
    if ms != [] {
      MemberAscii(ms[0]);
      MembersAscii(ms[1..]);
    }
  }

  /** The ASCII form is ASCII whatever the strings inside hold, so its UTF-8
      bytes are its characters one for one. */
  lemma CanonicalAscii(v: Json)
    ensures var t := CanonicalStr(v, Ascii);
      IsAscii(t) && |CanonicalBytes(v, Ascii)| == |t| && forall i :: 0 <= i < |t| ==>
        CanonicalBytes(v, Ascii)[i] == t[i] as int
  {
    TextAscii(Sorted(v));
    Utf8OfAscii(CanonicalStr(v, Ascii));
  }

  // ------------------------------------------------------- Python's view of a value

  /** What Python finds false. */
  lemma FalsyValues(v: Json)
    ensures !Truthy(v) <==> v in {Null, Bool(false), Int(0), Str(""), Arr([]), Obj([])}
  {
  }

  predicate Truthy(v: Json) {
    match v
    case Null => false
    case Bool(b) => b
    case Int(n) => n != 0
    case Str(s) => s != ""
    case Arr(items) => items != []
    case Obj(ms) => ms != []
  }

  /** `str(v or "")`; `show` is `str` of a value that is no text. */
  function StrOr(show: Json -> string, v: Json): string {
    if !Truthy(v) then "" else if v.Str? then v.s else show(v)
  }

  /** `v == n`: to Python a boolean is the number 0 or 1. */
  predicate EqualsInt(v: Json, n: int) {
    v == Int(n) || (v == Bool(true) && n == 1) || (v == Bool(false) && n == 0)
  }

  // ------------------------------------------------------------ dict helpers

  predicate HasKey(ms: seq<Member>, key: string) {
    exists i :: 0 <= i < |ms| && ms[i].key == key
  }

  /** `payload.get(key)`: `null` for a missing key. */
  function Get(ms: seq<Member>, key: string): Json {
    if ms == [] then Null else if ms[0].key == key then ms[0].value else Get(ms[1..], key)
  }

  /** `{k: v for k, v in payload.items() if k not in keys}`. */
  function Without(ms: seq<Member>, keys: set<string>): seq<Member> {
    if ms == [] then []
    else if ms[0].key in keys then Without(ms[1..], keys)
    else [ms[0]] + Without(ms[1..], keys)
  }

  lemma {:induction false} GetAt(ms: seq<Member>, i: nat)
    requires i < |ms| && DistinctKeys(ms)
    ensures Get(ms, ms[i].key) == ms[i].value
  {
    if i > 0 {
      GetAt(ms[1..], i - 1);
      assert ms[0].key != ms[i].key;
    }
  }

  ghost predicate SameKeys(a: seq<Member>, b: seq<Member>) {
    forall k :: HasKey(a, k) <==> HasKey(b, k)
  }

  ghost predicate SameValues(a: seq<Member>, b: seq<Member>) {
    forall k :: HasKey(a, k) && HasKey(b, k) ==> Same(Get(a, k), Get(b, k))
  }

  /** Two dicts are the same exactly when they have the same keys and, key by
      key, the same value. */
  lemma SameByKeys(a: seq<Member>, b: seq<Member>)
    requires DistinctKeys(a) && DistinctKeys(b)
    ensures Same(Obj(a), Obj(b)) <==> SameKeys(a, b) && SameValues(a, b)
  {
    if Same(Obj(a), Obj(b)) {
      forall k | HasKey(a, k) ensures HasKey(b, k) && Same(Get(a, k), Get(b, k)) {
        var i :| 0 <= i < |a| && a[i].key == k;
        assert AmongRight(a[i], b);
        var j :| 0 <= j < |b| && SameMember(a[i], b[j]);
        GetAt(a, i);
        GetAt(b, j);
      }
      forall k | HasKey(b, k) ensures HasKey(a, k) {
        var j :| 0 <= j < |b| && b[j].key == k;
        assert AmongLeft(a, b[j]);
        var i :| 0 <= i < |a| && SameMember(a[i], b[j]);
        assert a[i].key == k;
      }
    }
    if SameKeys(a, b) && SameValues(a, b) {
      forall i | 0 <= i < |a| ensures AmongRight(a[i], b) {
        FoundRight(a, b, i);
      }
      forall j | 0 <= j < |b| ensures AmongLeft(a, b[j]) {
        FoundLeft(a, b, j);
      }
    }
  }

  lemma FoundRight(a: seq<Member>, b: seq<Member>, i: nat)
    requires DistinctKeys(a) && DistinctKeys(b) && SameKeys(a, b) && SameValues(a, b) && i < |a|
    ensures AmongRight(a[i], b)
  {
    assert HasKey(a, a[i].key) && HasKey(b, a[i].key);
    var j :| 0 <= j < |b| && b[j].key == a[i].key;
    MatchedByKey(a, b, i, j);
  }

  lemma FoundLeft(a: seq<Member>, b: seq<Member>, j: nat)
    requires DistinctKeys(a) && DistinctKeys(b) && SameKeys(a, b) && SameValues(a, b) && j < |b|
    ensures AmongLeft(a, b[j])
  {
    assert HasKey(b, b[j].key) && HasKey(a, b[j].key);
    var i :| 0 <= i < |a| && a[i].key == b[j].key;
    MatchedByKey(a, b, i, j);
  }

  lemma {:induction false} MatchedByKey(a: seq<Member>, b: seq<Member>, i: nat, j: nat)
    requires DistinctKeys(a) && DistinctKeys(b) && i < |a| && j < |b| && a[i].key == b[j].key
    ensures Same(Get(a, a[i].key), Get(b, b[j].key)) <==> SameMember(a[i], b[j])
  {
    GetAt(a, i);
    GetAt(b, j);
  }

  lemma {:induction false} SameReflexive(v: Json)
    ensures Same(v, v)
    decreases v
  {
    match v
    case Arr(items) =>
      forall i | 0 <= i < |items| ensures Same(items[i], items[i]) {
        SameReflexive(items[i]);
      }
    case Obj(ms) =>
      forall i | 0 <= i < |ms| ensures SameMember(ms[i], ms[i]) {
        SameReflexive(ms[i].value);
      }
      forall i | 0 <= i < |ms| ensures AmongRight(ms[i], ms) && AmongLeft(ms, ms[i]) {
        assert SameMember(ms[i], ms[i]);
      }
    case _ =>
  }

  lemma {:induction false} WithoutKeepsData(ms: seq<Member>, keys: set<string>)
    requires IsData(Obj(ms))
    ensures IsData(Obj(Without(ms, keys)))
    ensures forall k :: HasKey(Without(ms, keys), k) <==> HasKey(ms, k) && k !in keys
    ensures forall k :: k !in keys ==> Get(Without(ms, keys), k) == Get(ms, k)
  {
    if ms != [] {
      assert forall i :: 0 <= i < |ms[1..]| ==> ms[1..][i] == ms[i + 1];
      WithoutKeepsData(ms[1..], keys);
      var rest := Without(ms[1..], keys);
      forall k ensures HasKey(ms, k) <==> ms[0].key == k || HasKey(ms[1..], k) {
        HasKeyCons(ms, k);
      }
      forall k ensures HasKey([ms[0]] + rest, k) <==> ms[0].key == k || HasKey(rest, k) {
        HasKeyCons([ms[0]] + rest, k);
      }
      forall i | 0 <= i < |rest| ensures rest[i].key != ms[0].key {
        assert HasKey(rest, rest[i].key);
        assert HasKey(ms[1..], rest[i].key);
      }
    }
  }

  lemma HasKeyCons(ms: seq<Member>, k: string)
    requires ms != []
    ensures HasKey(ms, k) <==> ms[0].key == k || HasKey(ms[1..], k)
  {
    if HasKey(ms[1..], k) {
      var i :| 0 <= i < |ms[1..]| && ms[1..][i].key == k;
      assert ms[i + 1].key == k;
    }
    if HasKey(ms, k) && ms[0].key != k {
      var i :| 0 <= i < |ms| && ms[i].key == k;
      assert ms[1..][i - 1].key == k;
    }
  }
}
