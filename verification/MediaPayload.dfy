/** `sign_media_urls_in` as the code runs it: the dicts and lists of a payload
    are objects, walked and overwritten in place. What is left in them is what
    `MediaSigner.SignedIn` says of the value they held. */
module MediaPayload {
  import opened Octets
  import opened JsonText
  import opened MediaSigner

  /** What a dict or a list holds: an atom, or another container. */
  datatype Value = Atom(v: Json) | Box(c: Container)

  /** A dict under its names, or a list. */
  class Container {
    const names: Option<seq<string>>
    var values: seq<Value>
    ghost var repr: set<object>

    /** A tree: nothing in it is reached by two paths. */
    ghost predicate Valid()
      reads this, repr
      decreases repr
    {
      && this in repr && (names.Some? ==> |names.value| == |values|)
      && (forall i :: 0 <= i < |values| && values[i].Box? ==> Owns(i))
      && (forall i :: 0 <= i < |values| && values[i].Atom? ==> IsAtom(values[i].v))
      && forall i, j :: 0 <= i < j < |values| && values[i].Box? && values[j].Box? ==>
         values[i].c.repr !! values[j].c.repr
    }

    ghost predicate Owns(i: nat)
      requires this in repr && i < |values| && values[i].Box?
      reads this, repr
      decreases repr, 0
    {
      var c := values[i].c;
      c in repr && c.repr <= repr && this !in c.repr && c.Valid()
    }

    /** The value at one place. */
    ghost function At(i: nat): Json
      requires Valid() && i < |values|
      reads this, repr
      decreases repr, 0
    {
      match values[i]
      case Atom(v) => v
      case Box(c) => assert Owns(i); c.Image()
    }

    ghost function Items(): (r: seq<Json>)
      requires Valid()
      reads this, repr
      ensures |r| == |values| && forall i :: 0 <= i < |r| ==> r[i] == At(i)
      decreases repr, 1
    {
      seq(|values|, i requires 0 <= i < |values| && Valid() reads this, repr => At(i))
    }

    /** The JSON value this container holds. */
    ghost function Image(): (r: Json)
      requires Valid()
      reads this, repr
      ensures !IsAtom(r)
      decreases repr, 2
    {
      match names
      case Some(ns) => Obj(Named(ns, Items()))
      case None => Arr(Items())
    }

    /** A list over given values, whose containers it takes over. */
    constructor List(values: seq<Value>, ghost owned: set<object>)
      requires forall i :: 0 <= i < |values| && values[i].Box? ==>
        values[i].c in owned && values[i].c.repr <= owned && values[i].c.Valid()
      requires forall i :: 0 <= i < |values| && values[i].Atom? ==> IsAtom(values[i].v)
      requires forall i, j :: 0 <= i < j < |values| && values[i].Box? && values[j].Box? ==>
        values[i].c.repr !! values[j].c.repr
      ensures Valid() && fresh(this) && repr == {this} + owned && names == None && this.values == values
    {
      names, this.values, repr := None, values, {this} + owned;
    }

    /** Puts an atom in one place. */
    method PutAtom(i: nat, v: Json)
      requires Valid() && i < |values| && IsAtom(v)
      modifies this`values
      ensures Valid() && |values| == |old(values)| && At(i) == v
      ensures values == old(values)[i := Atom(v)]
      ensures forall j :: 0 <= j < |values| && j != i ==> At(j) == old(At(j))
    {
      values := values[i := Atom(v)];
      assert forall j :: 0 <= j < |values| && values[j].Box? ==> old(Owns(j));
    }

    /** Puts a new container in one place. */
    method PutBox(i: nat, c: Container)
      requires Valid() && i < |values| && c.Valid() && this !in c.repr
      requires forall j :: 0 <= j < |values| && j != i && values[j].Box? ==> values[j].c.repr !! c.repr
      modifies this`values, this`repr
      ensures Valid() && |values| == |old(values)| && repr == old(repr) + c.repr && At(i) == c.Image()
      ensures forall j :: 0 <= j < |values| && j != i ==> At(j) == old(At(j))
    {
      values, repr := values[i := Box(c)], repr + c.repr;
      assert forall j :: 0 <= j < |values| && j != i && values[j].Box? ==> old(Owns(j));
    }

    /** Signs what a list holds directly, into a new list. */
    method SignList(i: nat, sign: string -> string)
      requires Valid() && i < |values| && At(i).Arr?
      modifies this`values, this`repr
      ensures Valid() && |values| == |old(values)| && fresh(repr - old(repr))
      ensures At(i) == Arr(SignedUrls(sign, old(At(i).items)))
      ensures forall j :: 0 <= j < |values| && j != i ==> At(j) == old(At(j))
    {
      assert Owns(i);
      var l := values[i].c;
      ghost var was := l.Items();
      var signed := SignedValues(sign, l.values);
      assert forall k :: 0 <= k < |l.values| && l.values[k].Box? ==> l.Owns(k);
      var list := new Container.List(signed, l.repr - {l});
      forall k | 0 <= k < |signed| ensures list.At(k) == if IsOwnUrl(was[k]) then Str(sign(was[k].s)) else was[k] {
        assert was[k] == l.At(k);
      }
      assert list.Items() == SignedUrls(sign, was);
      PutBox(i, list);
    }

    /** Walks into the container at one place. */
    method WalkInto(i: nat, sign: string -> string, fields: set<string>, ghost was: Json)
      requires Valid() && i < |values| && values[i].Box? && At(i) == was
      modifies repr
      ensures Valid() && values == old(values) && fresh(repr - old(repr))
      ensures At(i) == SignedIn(sign, fields, was)
      ensures forall j :: 0 <= j < |values| && j != i ==> At(j) == old(At(j))
      decreases was, 1
    {
      assert Owns(i);
      var c := values[i].c;
      ghost var below := c.repr;
      forall j | 0 <= j < |values| && j != i && values[j].Box?
        ensures Owns(j) && values[j].c.repr !! below && values[j].c in values[j].c.repr
      {
        assert Owns(j);
        assert values[j].c.Valid();
      }
      c.SignIn(sign, fields, was);
      assert forall j :: 0 <= j < |values| && j != i && values[j].Box? ==>
        values[j].c.repr == old(values[j].c.repr) && values[j].c.repr !! c.repr;
      repr := repr + c.repr;
      assert Owns(i);
      assert forall j :: 0 <= j < |values| && j != i && values[j].Box? ==> old(Owns(j)) && Owns(j);
      forall j | 0 <= j < |values| && j != i ensures At(j) == old(At(j)) {
        if values[j].Box? {
          assert values[j].c.Image() == old(values[j].c.Image());
        }
      }
    }

    /** One turn of the loop over a dict. */
    method SignField(i: nat, sign: string -> string, fields: set<string>, key: string, ghost was: Json)
      requires Valid() && i < |values| && At(i) == was
      modifies repr
      ensures Valid() && |values| == |old(values)| && fresh(repr - old(repr))
      ensures At(i) == SignedField(sign, fields, key, was)
      ensures forall j :: 0 <= j < |values| && j != i ==> At(j) == old(At(j))
      decreases was, 2
    {
      if key in fields && values[i].Atom? && IsOwnUrl(values[i].v) {
        PutAtom(i, Str(sign(values[i].v.s)));
      } else if key in LIST_FIELDS && values[i].Box? && values[i].c.names.None? {
        SignList(i, sign);
      } else if values[i].Box? {
        WalkInto(i, sign, fields, was);
      }
    }

    /** The walk over one container and all below it. */
    method SignIn(sign: string -> string, fields: set<string>, ghost was: Json)
      requires Valid() && Image() == was
      modifies repr
      ensures Valid() && fresh(repr - old(repr))
      ensures Image() == SignedIn(sign, fields, was)
      decreases was, 0
    {
      ghost var items := Items();
      var i := 0;
      while i < |values|
        invariant 0 <= i <= |values| == |items| && Valid() && fresh(repr - old(repr))
        invariant forall j :: 0 <= j < i ==> At(j) == SignedPlace(sign, fields, names, j, items[j])
        invariant forall j :: i <= j < |values| ==> At(j) == items[j]
      {
        if names.Some? {
          SignField(i, sign, fields, names.value[i], items[i]);
        } else if values[i].Box? {
          WalkInto(i, sign, fields, items[i]);
        }
        i := i + 1;
      }
      SignedPlaces(sign, fields, names, items, Items());
    }

    /** `sign_media_urls_in`, with the names of `extra_fields` beside the ones
        always signed. */
    method SignMediaUrls(sign: string -> string, extra: set<string>)
      requires Valid()
      modifies repr
      ensures Valid() && fresh(repr - old(repr))
      ensures Image() == SignedIn(sign, URL_FIELDS + extra, old(Image()))
    {
      SignIn(sign, URL_FIELDS + extra, Image());
    }
  }

  /** What stands at one place of a dict or list afterwards. */
  function SignedPlace(sign: string -> string, fields: set<string>, names: Option<seq<string>>, j: nat, was: Json): Json
    requires names.Some? ==> j < |names.value|
  {
    match names
    case Some(ns) => SignedField(sign, fields, ns[j], was)
    case None => SignedIn(sign, fields, was)
  }

  lemma {:induction false} SignedMembersAt(sign: string -> string, fields: set<string>, ms: seq<Member>, i: nat)
    requires i < |ms|
    ensures SignedMembers(sign, fields, ms)[i] == Member(ms[i].key, SignedField(sign, fields, ms[i].key, ms[i].value))
  {
    if i > 0 {
      SignedMembersAt(sign, fields, ms[1..], i - 1);
    }
  }

  /** Signed at every place is signed as a whole. */
  lemma SignedPlaces(sign: string -> string, fields: set<string>, names: Option<seq<string>>, items: seq<Json>,
                     signed: seq<Json>)
    requires |items| == |signed| && (names.Some? ==> |names.value| == |items|)
    requires forall j :: 0 <= j < |items| ==> signed[j] == SignedPlace(sign, fields, names, j, items[j])
    ensures names.Some? ==> SignedIn(sign, fields, Obj(Named(names.value, items))) == Obj(Named(names.value, signed))
    ensures names.None? ==> SignedIn(sign, fields, Arr(items)) == Arr(signed)
  {
    match names
    case Some(ns) =>
      var ms := Named(ns, items);
      forall j | 0 <= j < |ms| ensures SignedMembers(sign, fields, ms)[j] == Named(ns, signed)[j] {
        SignedMembersAt(sign, fields, ms, j);
      }
      assert SignedMembers(sign, fields, ms) == Named(ns, signed);
    case None =>
      forall j | 0 <= j < |items| ensures SignedItems(sign, fields, items)[j] == signed[j] {
        SignedItemsAt(sign, fields, items, j);
      }
      assert SignedItems(sign, fields, items) == signed;
  }

  function SignedValues(sign: string -> string, vs: seq<Value>): (r: seq<Value>)
    ensures |r| == |vs|
    ensures forall i :: 0 <= i < |r| ==>
      r[i] == if vs[i].Atom? && IsOwnUrl(vs[i].v) then Atom(Str(sign(vs[i].v.s))) else vs[i]
  {
    seq(|vs|, i requires 0 <= i < |vs| =>
      if vs[i].Atom? && IsOwnUrl(vs[i].v) then Atom(Str(sign(vs[i].v.s))) else vs[i])
  }

  function Named(ns: seq<string>, items: seq<Json>): (r: seq<Member>)
    requires |ns| == |items|
    ensures |r| == |ns| && forall i :: 0 <= i < |r| ==> r[i] == Member(ns[i], items[i])
  {
    seq(|ns|, i requires 0 <= i < |ns| => Member(ns[i], items[i]))
  }
}
