/** Collecting the fields of a structure from its type information, with the members of anonymous
    structures and unions lifted into it. */
module BtfFields {
  import opened Options
  import opened Words
  import opened Bitfield

  /** A member with a name and, for a bitfield, a width; or an anonymous structure or union. */
  datatype Member =
    | Named(name: string, bitOffset: nat, width: nat)
    | Anonymous(bitOffset: nat, members: seq<Member>)

  datatype Field = Field(name: string, offset: nat, bits: Option<Bitfield>)

  predicate HasField(fields: seq<Field>, name: string) {
    exists i :: 0 <= i < |fields| && fields[i].name == name
  }

  /** `AddField`: the first field of a name wins. */
  function Added(fields: seq<Field>, f: Field): seq<Field> {
    if HasField(fields, f.name) then fields else fields + [f]
  }

  function ResolveBits(bitOffset: nat, width: nat): Option<Bitfield> {
    if width == 0 then None else Some(MakeBitfield(bitOffset % 8, width))
  }

  /** Adds the fields of one member of a structure that starts at byte `start`. */
  function Resolve(m: Member, start: nat, fields: seq<Field>): seq<Field>
    decreases m, 1, 0
  {
    var offset := start + m.bitOffset / 8;
    match m
    case Named(name, bitOffset, width) => Added(fields, Field(name, offset, ResolveBits(bitOffset, width)))
    case Anonymous(_, members) => ResolveUpTo(m, |members|, offset, fields)
  }

  /** Adds the fields of the first `n` members. */
  function ResolveUpTo(m: Member, n: nat, start: nat, fields: seq<Field>): seq<Field>
    requires m.Anonymous? && n <= |m.members|
    decreases m, 0, n
  {
    if n == 0 then fields else Resolve(m.members[n - 1], start, ResolveUpTo(m, n - 1, start, fields))
  }

  class Record {
    var fields: seq<Field>

    constructor ()
      ensures fields == []
    {
      fields := [];
    }

    method AddField(f: Field)
      modifies this
      ensures fields == Added(old(fields), f)
    {
      var i := 0;
      while i < |fields|
        invariant i <= |fields| && forall j :: 0 <= j < i ==> fields[j].name != f.name
      {
        if fields[i].name == f.name {
          return;
        }
        i := i + 1;
      }
      fields := fields + [f];
    }

    /** `resolve_fields`: the members of the structure or union `m`, which starts at byte `start`. */
    method ResolveFields(m: Member, start: nat)
      requires m.Anonymous?
      modifies this
      ensures fields == ResolveUpTo(m, |m.members|, start, old(fields))
      decreases m
    {
      for i := 0 to |m.members|
        invariant fields == ResolveUpTo(m, i, start, old(fields))
      {
        var member := m.members[i];
        var offset := start + member.bitOffset / 8;
        match member {
          case Anonymous(_, _) => ResolveFields(member, offset);
          case Named(name, bitOffset, width) => AddField(Field(name, offset, ResolveBits(bitOffset, width)));
        }
      }
    }
  }

  // ---------- absolute positions ----------

  /** A member that has a name, with its absolute position in bits. */
  datatype Place = Place(name: string, at: nat, width: nat)

  /** All named members, in order, of a member whose structure starts at bit `base`. */
  function Places(m: Member, base: nat): seq<Place>
    decreases m, 1, 0
  {
    match m
    case Named(name, bitOffset, width) => [Place(name, base + bitOffset, width)]
    case Anonymous(bitOffset, members) => PlacesUpTo(m, |members|, base + bitOffset)
  }

  function PlacesUpTo(m: Member, n: nat, base: nat): seq<Place>
    requires m.Anonymous? && n <= |m.members|
    decreases m, 0, n
  {
    if n == 0 then [] else PlacesUpTo(m, n - 1, base) + Places(m.members[n - 1], base)
  }

  /** The positions the code works with: the start of each anonymous member is cut to a whole byte. */
  function Found(m: Member, start: nat): seq<Place>
    decreases m, 1, 0
  {
    match m
    case Named(name, bitOffset, width) => [Place(name, 8 * start + bitOffset, width)]
    case Anonymous(bitOffset, members) => FoundUpTo(m, |members|, start + bitOffset / 8)
  }

  function FoundUpTo(m: Member, n: nat, start: nat): seq<Place>
    requires m.Anonymous? && n <= |m.members|
    decreases m, 0, n
  {
    if n == 0 then [] else FoundUpTo(m, n - 1, start) + Found(m.members[n - 1], start)
  }

  /** No named member anywhere inside. */
  predicate Hollow(m: Member)
    decreases m
  {
    m.Anonymous? && forall i :: 0 <= i < |m.members| ==> Hollow(m.members[i])
  }

  /** Anonymous structures and unions with a named member inside start at whole bytes. */
  predicate WholeBytes(m: Member)
    decreases m
  {
    m.Anonymous? ==>
      && (Hollow(m) || m.bitOffset % 8 == 0)
      && forall i :: 0 <= i < |m.members| ==> WholeBytes(m.members[i])
  }

  function FieldOf(p: Place): Field {
    Field(p.name, p.at / 8, ResolveBits(p.at, p.width))
  }

  function AddAll(fields: seq<Field>, ps: seq<Place>): seq<Field> {
    if |ps| == 0 then fields else Added(AddAll(fields, ps[..|ps| - 1]), FieldOf(ps[|ps| - 1]))
  }

  lemma {:induction false} AddAllConcat(fields: seq<Field>, ps: seq<Place>, qs: seq<Place>)
    ensures AddAll(fields, ps + qs) == AddAll(AddAll(fields, ps), qs)
    decreases |qs|
  {
    if |qs| == 0 {
      assert ps + qs == ps;
    } else {
      AddAllConcat(fields, ps, qs[..|qs| - 1]);
      assert (ps + qs)[..|ps + qs| - 1] == ps + qs[..|qs| - 1];
    }
  }

  /** The byte offset and the bit offset inside the byte stand for the absolute position. */
  lemma SplitPosition(base: nat, bitOffset: nat)
    ensures (8 * base + bitOffset) / 8 == base + bitOffset / 8 && (8 * base + bitOffset) % 8 == bitOffset % 8
  {
  }

  /** Resolving adds exactly the named members, in order. */
  lemma {:induction false} ResolveIsFound(m: Member, start: nat, fields: seq<Field>)
    ensures Resolve(m, start, fields) == AddAll(fields, Found(m, start))
    decreases m, 1, 0
  {
    SplitPosition(start, m.bitOffset);
    match m
    case Named(_, _, _) => assert AddAll(fields, []) == fields;
    case Anonymous(bitOffset, members) =>
      ResolveUpToIsFound(m, |members|, start + bitOffset / 8, fields);
  }

  lemma {:induction false} ResolveUpToIsFound(m: Member, n: nat, start: nat, fields: seq<Field>)
    requires m.Anonymous? && n <= |m.members|
    ensures ResolveUpTo(m, n, start, fields) == AddAll(fields, FoundUpTo(m, n, start))
    decreases m, 0, n
  {
    if n > 0 {
      ResolveUpToIsFound(m, n - 1, start, fields);
      ResolveIsFound(m.members[n - 1], start, ResolveUpTo(m, n - 1, start, fields));
      AddAllConcat(fields, FoundUpTo(m, n - 1, start), Found(m.members[n - 1], start));
    }
  }

  /** Both lists of positions are as long, and empty exactly for what is hollow. */
  lemma {:induction false} SameCount(m: Member, start: nat, base: nat)
    ensures |Found(m, start)| == |Places(m, base)|
    ensures |Places(m, base)| == 0 <==> Hollow(m)
    decreases m, 1, 0
  {
    if m.Anonymous? {
      SameCountUpTo(m, |m.members|, start + m.bitOffset / 8, base + m.bitOffset);
    }
  }

  lemma {:induction false} SameCountUpTo(m: Member, n: nat, start: nat, base: nat)
    requires m.Anonymous? && n <= |m.members|
    ensures |FoundUpTo(m, n, start)| == |PlacesUpTo(m, n, base)|
    ensures |PlacesUpTo(m, n, base)| == 0 <==> forall i :: 0 <= i < n ==> Hollow(m.members[i])
    decreases m, 0, n
  {
    hide Hollow;
    if n > 0 {
      SameCountUpTo(m, n - 1, start, base);
      SameCount(m.members[n - 1], start, base);
    }
  }

  lemma ConcatEqualIff<T>(a: seq<T>, b: seq<T>, c: seq<T>, d: seq<T>)
    requires |a| == |c|
    ensures a + b == c + d <==> a == c && b == d
  {
    if a + b == c + d {
      assert a == (a + b)[..|a|] == (c + d)[..|a|] == c;
      assert b == (a + b)[|a|..] == (c + d)[|a|..] == d;
    }
  }

  /** `rest` bits have been lost on the way to this member. */
  lemma {:induction false} FoundAtIff(m: Member, start: nat, rest: nat)
    ensures Found(m, start) == Places(m, 8 * start + rest) <==> (Hollow(m) || rest == 0) && WholeBytes(m)
    decreases m, 1, 0
  {
    if m.Anonymous? {
      var inner, lost := start + m.bitOffset / 8, rest + m.bitOffset % 8;
      assert 8 * start + rest + m.bitOffset == 8 * inner + lost;
      FoundUpToIff(m, |m.members|, inner, lost);
      if Hollow(m) {
        HollowWhole(m);
      }
    }
  }

  lemma {:induction false} FoundUpToIff(m: Member, n: nat, start: nat, rest: nat)
    requires m.Anonymous? && n <= |m.members|
    ensures FoundUpTo(m, n, start) == PlacesUpTo(m, n, 8 * start + rest) <==>
            forall i :: 0 <= i < n ==> (Hollow(m.members[i]) || rest == 0) && WholeBytes(m.members[i])
    decreases m, 0, n
  {
    hide Hollow, WholeBytes;
    if n > 0 {
      var kid, base := m.members[n - 1], 8 * start + rest;
      FoundUpToIff(m, n - 1, start, rest);
      FoundAtIff(kid, start, rest);
      SameCountUpTo(m, n - 1, start, base);
      ConcatEqualIff(FoundUpTo(m, n - 1, start), Found(kid, start), PlacesUpTo(m, n - 1, base), Places(kid, base));
    }
  }

  lemma {:induction false} HollowWhole(m: Member)
    requires Hollow(m)
    ensures WholeBytes(m)
  {
    forall i | 0 <= i < |m.members|
      ensures WholeBytes(m.members[i])
    {
      HollowWhole(m.members[i]);
    }
  }

  /** The code places every named member at its absolute position if and only if every anonymous
      structure or union that holds one starts at a whole byte. */
  lemma PlacedRightIff(m: Member, start: nat)
    ensures Found(m, start) == Places(m, 8 * start) <==> WholeBytes(m)
  {
    FoundAtIff(m, start, 0);
  }

  /** Resolving adds exactly the named members, in order, each at its absolute position. */
  lemma ResolveIsPlaces(m: Member, start: nat, fields: seq<Field>)
    requires WholeBytes(m)
    ensures Resolve(m, start, fields) == AddAll(fields, Places(m, 8 * start))
  {
    ResolveIsFound(m, start, fields);
    PlacedRightIff(m, start);
  }

  // ---------- what the fields read ----------

  predicate FirstNamed(ps: seq<Place>, i: nat)
    requires i < |ps|
  {
    forall j :: 0 <= j < i ==> ps[j].name != ps[i].name
  }

  lemma {:induction false} AddAllNames(ps: seq<Place>, name: string)
    ensures HasField(AddAll([], ps), name) <==> exists i :: 0 <= i < |ps| && ps[i].name == name
  {
    if |ps| > 0 {
      var n := |ps| - 1;
      AddAllNames(ps[..n], name);
      AddAllNames(ps[..n], ps[n].name);
      var before := AddAll([], ps[..n]);
      if HasField(before, name) {
        var i :| 0 <= i < |ps[..n]| && ps[..n][i].name == name;
        assert ps[i].name == name;
        var j :| 0 <= j < |before| && before[j].name == name;
        assert AddAll([], ps)[j].name == name;
      }
      if ps[n].name == name && !HasField(before, name) {
        assert AddAll([], ps)[|before|].name == name;
      }
    }
  }

  /** `f` comes from the first member of some name. */
  ghost predicate Chosen(ps: seq<Place>, f: Field) {
    exists i :: 0 <= i < |ps| && FirstNamed(ps, i) && f == FieldOf(ps[i])
  }

  lemma FirstNamedTake(ps: seq<Place>, n: nat, i: nat)
    requires i < n <= |ps|
    ensures FirstNamed(ps[..n], i) <==> FirstNamed(ps, i)
  {
    assert forall j :: 0 <= j < n ==> ps[..n][j] == ps[j];
  }

  lemma ChosenGrows(ps: seq<Place>, n: nat, f: Field)
    requires n <= |ps| && Chosen(ps[..n], f)
    ensures Chosen(ps, f)
  {
    hide FieldOf, FirstNamed;
    var i :| 0 <= i < n && FirstNamed(ps[..n], i) && f == FieldOf(ps[..n][i]);
    FirstNamedTake(ps, n, i);
    assert ps[..n][i] == ps[i];
  }

  lemma ChosenStep(ps: seq<Place>, f: Field)
    requires |ps| > 0
    ensures var n := |ps| - 1;
      Chosen(ps, f) <==> Chosen(ps[..n], f) || (FirstNamed(ps, n) && f == FieldOf(ps[n]))
  {
    hide FieldOf, FirstNamed;
    var n := |ps| - 1;
    if Chosen(ps[..n], f) {
      ChosenGrows(ps, n, f);
    }
    if Chosen(ps, f) {
      var i :| 0 <= i < |ps| && FirstNamed(ps, i) && f == FieldOf(ps[i]);
      if i < n {
        FirstNamedTake(ps, n, i);
        assert ps[..n][i] == ps[i];
      }
    }
  }

  lemma FirstIffNew(ps: seq<Place>)
    requires |ps| > 0
    ensures var n := |ps| - 1;
      FirstNamed(ps, n) <==> !exists i :: 0 <= i < |ps[..n]| && ps[..n][i].name == ps[n].name
  {
    var n := |ps| - 1;
    assert forall i :: 0 <= i < n ==> ps[..n][i] == ps[i];
  }

  /** The fields of a structure are the first members of each name, each at its absolute position. */
  lemma {:induction false} FieldsAreFirst(ps: seq<Place>, f: Field)
    ensures f in AddAll([], ps) <==> Chosen(ps, f)
  {
    hide Chosen, FirstNamed, FieldOf, HasField;
    if |ps| > 0 {
      var n := |ps| - 1;
      FieldsAreFirst(ps[..n], f);
      AddAllNames(ps[..n], ps[n].name);
      FirstIffNew(ps);
      ChosenStep(ps, f);
      FieldName(ps[n]);
    } else {
      NoneChosen(ps, f);
    }
  }

  lemma FieldName(p: Place)
    ensures FieldOf(p).name == p.name
  {
  }

  lemma NoneChosen(ps: seq<Place>, f: Field)
    requires |ps| == 0
    ensures !Chosen(ps, f)
  {
  }

  lemma ReadPlace(p: Place, s: seq<byte>, size: nat)
    requires 0 < p.width <= MAX_WIDTH
    requires p.at / 8 + size <= |s| && MakeBitfield(p.at % 8, p.width).readBytes <= size
    ensures p.at + p.width <= 8 * |s|
    ensures Extract(MakeBitfield(p.at % 8, p.width), FromLE(s[p.at / 8..p.at / 8 + size]), size)
      == AbsoluteBits(s, p.at, p.width)
  {
    hide Extract, AbsoluteBits, FromLE;
    ReadBytesMinimal(p.at % 8, p.width, size);
    ContainerExact(s, p.at, p.width, size);
  }

  /** A field found in the collected structure belongs to the first member of its name, and if it is a
      bitfield, reading it gives that member's absolute bits. */
  lemma ReadByName(m: Member, f: Field, s: seq<byte>, size: nat) returns (i: nat)
    requires m.Anonymous? && m.bitOffset == 0 && WholeBytes(m) && f in Resolve(m, 0, [])
    ensures i < |Places(m, 0)| && FirstNamed(Places(m, 0), i) && f == FieldOf(Places(m, 0)[i])
    ensures var p := Places(m, 0)[i];
      0 < p.width <= MAX_WIDTH && f.offset + size <= |s| && f.bits.value.readBytes <= size ==>
        && p.at + p.width <= 8 * |s|
        && Extract(f.bits.value, FromLE(s[f.offset..f.offset + size]), size) == AbsoluteBits(s, p.at, p.width)
  {
    hide Extract, AbsoluteBits, FromLE, Resolve, Places, MakeBitfield, AddAll;
    ResolveIsPlaces(m, 0, []);
    var ps := Places(m, 0);
    FieldsAreFirst(ps, f);
    i :| 0 <= i < |ps| && FirstNamed(ps, i) && f == FieldOf(ps[i]);
    var p := ps[i];
    if 0 < p.width <= MAX_WIDTH && f.offset + size <= |s| && f.bits.value.readBytes <= size {
      ReadPlace(p, s, size);
    }
  }
}
