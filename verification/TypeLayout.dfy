/** Sizes and alignments of types, and where the leaves of nested tuples and records end up. */
module TypeLayout {
  import opened Words
  import opened Types
  import opened TypeOrder
  import opened Layout

  /** Kinds kept as raw bytes. */
  predicate IsByteArray(tag: nat) {
    tag == STRING || tag == 19 || tag == 21 || tag == 23 || tag == 26 || tag == 27 || tag == 28
  }

  predicate IsNested(t: SizedType) {
    t.Tuple? || t.Record?
  }

  function KidCount(t: SizedType): nat {
    match t
    case Tuple(xs) => |xs|
    case Record(fs) => |fs|
    case _ => 0
  }

  function Kid(t: SizedType, i: nat): (k: SizedType)
    requires i < KidCount(t)
    ensures k < t
  {
    if t.Tuple? then t.elems[i] else t.fields[i].ty
  }

  function ByteSize(t: SizedType): nat
    decreases t, 1, 0
  {
    match t
    case Plain(_, size, _) => size
    case Integer(size, _, _, _) => size
    case Pointer(_) => 8
    case CType(_, size) => size
    case Stack(_, _, _, _, size, _) => size
    case Array(count, element) => count * ByteSize(element)
    case _ => Layout.Size(Slots(t, KidCount(t)))
  }

  /** `GetInTupleAlignment`. A plain type of size zero has no alignment that could be met. */
  function Alignment(t: SizedType): nat
    decreases t, 2, 0
  {
    if t.Plain? && IsByteArray(t.tag) then 1
    else if IsNested(t) then Strictest(Slots(t, KidCount(t)), KidCount(t))
    else if t.CType? then 1
    else if ByteSize(t) <= 2 then ByteSize(t)
    else if t.Array? then Alignment(t.element)
    else if ByteSize(t) <= 4 then 4
    else 8
  }

  function Slots(t: SizedType, n: nat): (slots: seq<Slot>)
    requires n <= KidCount(t)
    ensures |slots| == n && Alignable(slots)
    ensures forall i :: 0 <= i < n ==> slots[i] == Slot(ByteSize(Kid(t, i)), Max(1, Alignment(Kid(t, i))))
    decreases t, 0, n
  {
    if n == 0 then []
    else
      var kid := Kid(t, n - 1);
      Slots(t, n - 1) + [Slot(ByteSize(kid), Max(1, Alignment(kid)))]
  }

  // ---------- nested fields ----------

  /** Every part has an alignment: no plain field of size zero anywhere inside. */
  predicate Sized(t: SizedType)
    decreases t
  {
    Alignment(t) > 0 && forall i :: 0 <= i < KidCount(t) ==> Sized(Kid(t, i))
  }

  /** A path of field numbers leads somewhere. */
  predicate Reaches(t: SizedType, path: seq<nat>)
    decreases |path|
  {
    |path| == 0 || (path[0] < KidCount(t) && Reaches(Kid(t, path[0]), path[1..]))
  }

  function Part(t: SizedType, path: seq<nat>): SizedType
    requires Reaches(t, path)
    decreases |path|
  {
    if |path| == 0 then t else Part(Kid(t, path[0]), path[1..])
  }

  function FieldStart(t: SizedType, i: nat): nat
    requires i < KidCount(t)
  {
    Start(Slots(t, KidCount(t)), i)
  }

  /** The distance of a nested part from the start of the whole. */
  function Offset(t: SizedType, path: seq<nat>): nat
    requires Reaches(t, path)
    decreases |path|
  {
    if |path| == 0 then 0 else FieldStart(t, path[0]) + Offset(Kid(t, path[0]), path[1..])
  }

  /** Two paths part ways at some field. */
  predicate Diverge(p: seq<nat>, q: seq<nat>) {
    |p| > 0 && |q| > 0 && (p[0] != q[0] || Diverge(p[1..], q[1..]))
  }

  predicate IsPower(a: nat) {
    a == 1 || a == 2 || a == 4 || a == 8
  }

  /** No bytes, and a kind whose alignment goes by its size: an array of no elements, say. */
  predicate Vanishes(t: SizedType) {
    !(t.Plain? && IsByteArray(t.tag)) && !IsNested(t) && !t.CType? && ByteSize(t) == 0
  }

  /** An alignment is 1, 2, 4 or 8, except that it is 0 exactly for what vanishes. */
  lemma {:induction false} AlignmentIsPower(t: SizedType)
    ensures if Vanishes(t) then Alignment(t) == 0 else IsPower(Alignment(t))
    decreases t
  {
    if IsNested(t) {
      hide ByteSize;
      forall i | 0 <= i < KidCount(t)
        ensures IsPower(Max(1, Alignment(Kid(t, i))))
      {
        AlignmentIsPower(Kid(t, i));
      }
      MaxIsPower(Slots(t, KidCount(t)), KidCount(t));
    } else if t.Array? {
      AlignmentIsPower(t.element);
    }
  }

  lemma {:induction false} MaxIsPower(slots: seq<Slot>, n: nat)
    requires n <= |slots| && forall i :: 0 <= i < |slots| ==> IsPower(slots[i].align)
    ensures IsPower(Strictest(slots, n))
    decreases n
  {
    if n > 0 {
      MaxIsPower(slots, n - 1);
    }
  }

  lemma Multiple(x: nat, a: nat, k: nat)
    requires a > 0 && x == k * a
    ensures x % a == 0
  {
    DivModUnique(x, a, k, 0);
  }

  /** What is aligned for the whole is aligned for a part. */
  lemma AlignedForPart(x: nat, a: nat, b: nat)
    requires IsPower(a) && IsPower(b) && a <= b && x % b == 0
    ensures x % a == 0
  {
    var c := if a == b then 1 else if b == 2 * a then 2 else if b == 4 * a then 4 else 8;
    assert x == b * (x / b) && b == c * a;
    assert x == (c * (x / b)) * a;
    Multiple(x, a, c * (x / b));
  }

  lemma AlignedSum(x: nat, y: nat, a: nat)
    requires IsPower(a) && x % a == 0 && y % a == 0
    ensures (x + y) % a == 0
  {
    var p, q := x / a, y / a;
    assert x == p * a && y == q * a;
    assert (p + q) * a == p * a + q * a;
    Multiple(x + y, a, p + q);
  }

  lemma {:induction false} KidBelow(slots: seq<Slot>, i: nat, n: nat)
    requires i < n <= |slots|
    ensures slots[i].align <= Strictest(slots, n)
    decreases n
  {
    if i < n - 1 {
      KidBelow(slots, i, n - 1);
    }
  }

  lemma KidPlaced(t: SizedType, i: nat, base: nat)
    requires Sized(t) && i < KidCount(t) && base % Alignment(t) == 0
    ensures Alignment(Kid(t, i)) > 0 && (base + FieldStart(t, i)) % Alignment(Kid(t, i)) == 0
    ensures FieldStart(t, i) + ByteSize(Kid(t, i)) <= ByteSize(t)
  {
    KidSlot(t, i);
    hide Sized, ByteSize, Alignment, Slots, FieldStart, IsPower;
    ShiftAligned(base, FieldStart(t, i), Alignment(Kid(t, i)), Alignment(t));
  }

  lemma ShiftAligned(base: nat, start: nat, a: nat, b: nat)
    requires IsPower(a) && IsPower(b) && a <= b && base % b == 0 && start % a == 0
    ensures a > 0 && (base + start) % a == 0
  {
    AlignedForPart(base, a, b);
    AlignedSum(base, start, a);
  }

  /** A part of what is sized: its alignment, and where it starts and ends. */
  lemma KidSlot(t: SizedType, i: nat)
    requires Sized(t) && i < KidCount(t)
    ensures IsPower(Alignment(t)) && IsPower(Alignment(Kid(t, i))) && Alignment(Kid(t, i)) <= Alignment(t)
    ensures FieldStart(t, i) % Alignment(Kid(t, i)) == 0
    ensures FieldStart(t, i) + ByteSize(Kid(t, i)) <= ByteSize(t)
  {
    var slots, kid := Slots(t, KidCount(t)), Kid(t, i);
    assert Sized(kid);
    AlignmentIsPower(t);
    AlignmentIsPower(kid);
    KidBelow(slots, i, |slots|);
    FieldInside(slots, i);
  }

  /** Where the whole is aligned, every nested part is aligned at its absolute offset and lies inside
      the whole. */
  lemma {:induction false} PartAligned(t: SizedType, path: seq<nat>, base: nat)
    requires Sized(t) && Reaches(t, path) && base % Alignment(t) == 0
    ensures Alignment(Part(t, path)) > 0 && (base + Offset(t, path)) % Alignment(Part(t, path)) == 0
    ensures Offset(t, path) + ByteSize(Part(t, path)) <= ByteSize(t)
    decreases |path|
  {
    hide ByteSize, Alignment, Slots;
    if |path| > 0 {
      KidPlaced(t, path[0], base);
      PartAligned(Kid(t, path[0]), path[1..], base + FieldStart(t, path[0]));
    }
  }

  lemma StrideAligned(base: nat, size: nat, a: nat, k: nat)
    requires IsPower(a) && base % a == 0 && size % a == 0
    ensures (base + k * size) % a == 0
  {
    var n := size / a;
    assert size == n * a;
    assert k * size == (k * n) * a;
    Multiple(k * size, a, k * n);
    AlignedSum(base, k * size, a);
  }

  lemma SecondAligned(base: nat, size: nat, a: nat)
    requires IsPower(a) && base % a == 0 && (base + 1 * size) % a == 0
    ensures size % a == 0
  {
    var p, q := base / a, (base + size) / a;
    assert base == p * a && base + size == q * a;
    assert size == (q - p) * a;
    assert q >= p;
    Multiple(size, a, q - p);
  }

  /** Element `k` of the array at `base` is aligned. */
  predicate ElementAligned(t: SizedType, base: nat, k: nat)
    requires t.Array? && Alignment(t.element) > 0
  {
    (base + k * ByteSize(t.element)) % Alignment(t.element) == 0
  }

  /** Where an array of two elements or more is aligned, all its elements are if and only if the size
      of an element is a multiple of its alignment. */
  lemma ElementsAlignedIff(t: SizedType, base: nat)
    requires t.Array? && t.count >= 2 && Alignment(t.element) > 0
    requires base % Alignment(t.element) == 0
    ensures (forall k :: 0 <= k < t.count ==> ElementAligned(t, base, k)) <==>
            ByteSize(t.element) % Alignment(t.element) == 0
  {
    var a, size := Alignment(t.element), ByteSize(t.element);
    AlignmentIsPower(t.element);
    hide Alignment, ByteSize;
    if size % a == 0 {
      forall k | 0 <= k < t.count
        ensures ElementAligned(t, base, k)
      {
        StrideAligned(base, size, a, k);
      }
    } else if ElementAligned(t, base, 1) {
      SecondAligned(base, size, a);
    }
  }

  /** Parts on diverging paths do not overlap. */
  lemma {:induction false} PartsApart(t: SizedType, p: seq<nat>, q: seq<nat>)
    requires Sized(t) && Reaches(t, p) && Reaches(t, q) && Diverge(p, q)
    ensures var (x, y) := (Offset(t, p), Offset(t, q));
      x + ByteSize(Part(t, p)) <= y || y + ByteSize(Part(t, q)) <= x
    decreases |p|
  {
    hide ByteSize, Alignment, Slots;
    var i, j := p[0], q[0];
    if i == j {
      PartsApart(Kid(t, i), p[1..], q[1..]);
    } else {
      PartAligned(Kid(t, i), p[1..], 0);
      PartAligned(Kid(t, j), q[1..], 0);
      if i < j {
        KidsApart(t, i, j);
      } else {
        KidsApart(t, j, i);
      }
    }
  }

  lemma KidsApart(t: SizedType, i: nat, j: nat)
    requires i < j < KidCount(t)
    ensures FieldStart(t, i) + ByteSize(Kid(t, i)) <= FieldStart(t, j)
  {
    FieldsApart(Slots(t, KidCount(t)), i, j);
  }

  // ---------- natural alignment ----------

  /** The least of 1, 2, 4 and 8 that is not below `n`, or 8; nothing for no bytes. */
  function Natural(n: nat): (a: nat)
    ensures n > 0 ==> IsPower(a) && (n <= a || a == 8) && a < 2 * n
  {
    if n <= 2 then n else if n <= 4 then 4 else 8
  }

  /** A value of one piece, addressed as a whole. */
  predicate IsScalar(t: SizedType) {
    t.Integer? || t.Pointer? || t.Stack? || (t.Plain? && !IsByteArray(t.tag))
  }

  /** The size a type was made with. */
  function Declared(t: SizedType): nat
    requires IsScalar(t)
  {
    if t.Pointer? then 8 else t.size
  }

  lemma ScalarIsNatural(t: SizedType)
    requires IsScalar(t)
    ensures ByteSize(t) == Declared(t) && Alignment(t) == Natural(Declared(t))
  {
  }

  lemma RawSize(t: SizedType)
    requires t.CType? || (t.Plain? && IsByteArray(t.tag))
    ensures ByteSize(t) == t.size && Alignment(t) == 1
  {
  }

  /** From a base that is a multiple of 8, every value of 1, 2, 4 or 8 bytes, however deep inside, lies at a
      multiple of its own size. */
  lemma ScalarAligned(t: SizedType, path: seq<nat>, base: nat)
    requires Sized(t) && Reaches(t, path) && base % 8 == 0
    requires IsScalar(Part(t, path)) && IsPower(Declared(Part(t, path)))
    ensures (base + Offset(t, path)) % Declared(Part(t, path)) == 0
    ensures Offset(t, path) + Declared(Part(t, path)) <= ByteSize(t)
  {
    hide Sized, ByteSize, Alignment, Offset, Part, Reaches;
    SizedIsPower(t);
    AlignedForPart(base, Alignment(t), 8);
    PartAligned(t, path, base);
    ScalarIsNatural(Part(t, path));
  }

  /** Pointers take eight bytes, at multiples of eight. */
  lemma PointerAligned(t: SizedType, path: seq<nat>, base: nat)
    requires Sized(t) && Reaches(t, path) && base % 8 == 0 && Part(t, path).Pointer?
    ensures ByteSize(Part(t, path)) == 8 && (base + Offset(t, path)) % 8 == 0 && Offset(t, path) + 8 <= ByteSize(t)
  {
    hide Sized, Alignment, Offset, Part, Reaches;
    ScalarAligned(t, path, base);
    SizedIsPower(t);
    AlignedForPart(base, Alignment(t), 8);
    PartAligned(t, path, base);
  }

  lemma SizedIsPower(t: SizedType)
    requires Sized(t)
    ensures IsPower(Alignment(t))
  {
    AlignmentIsPower(t);
  }

  /** The sizes that count for the alignment: of scalars, of arrays of at most two bytes and else of their
      elements; byte arrays and structures count as single bytes. */
  function Atoms(t: SizedType): set<nat>
    decreases t, 1, 0
  {
    if t.CType? || (t.Plain? && IsByteArray(t.tag)) then {1}
    else if IsNested(t) then KidAtoms(t, KidCount(t))
    else if t.Array? && ByteSize(t) > 2 then Atoms(t.element)
    else {ByteSize(t)}
  }

  function KidAtoms(t: SizedType, n: nat): set<nat>
    requires n <= KidCount(t)
    decreases t, 0, n
  {
    if n == 0 then {} else KidAtoms(t, n - 1) + Atoms(Kid(t, n - 1))
  }

  /** `a` is the largest natural alignment of these sizes, or 1 if none needs more. */
  ghost predicate Largest(sizes: set<nat>, a: nat) {
    && (forall n <- sizes :: Natural(n) <= a)
    && ((exists n <- sizes :: Natural(n) == a) || (a == 1 && forall n <- sizes :: n == 0))
  }

  /** Tuples and records are aligned as strictly as the strictest value inside them, and no more. */
  lemma {:induction false} AlignmentIsLargest(t: SizedType)
    ensures Largest(Atoms(t), Alignment(t))
    decreases t, 1, 0
  {
    if IsNested(t) {
      KidsLargest(t, KidCount(t));
    } else if t.Array? && ByteSize(t) > 2 {
      AlignmentIsLargest(t.element);
    } else {
      var n := if t.CType? || (t.Plain? && IsByteArray(t.tag)) then 1 else ByteSize(t);
      assert Atoms(t) == {n} && Natural(n) == Alignment(t);
    }
  }

  lemma {:induction false} StrictestPrefix(slots: seq<Slot>, front: seq<Slot>, n: nat)
    requires n <= |front| && front <= slots
    ensures Strictest(slots, n) == Strictest(front, n)
    decreases n
  {
    if n > 0 {
      StrictestPrefix(slots, front, n - 1);
    }
  }

  lemma StrictestNext(t: SizedType, n: nat)
    requires 0 < n <= KidCount(t)
    ensures Strictest(Slots(t, n), n) == Max(Strictest(Slots(t, n - 1), n - 1), Max(1, Alignment(Kid(t, n - 1))))
  {
    hide Alignment, ByteSize;
    StrictestPrefix(Slots(t, n), Slots(t, n - 1), n - 1);
  }

  lemma LargerOf(x: set<nat>, y: set<nat>, a: nat, b: nat)
    requires Largest(x, a) && Largest(y, b) && a >= 1
    ensures Largest(x + y, Max(a, Max(1, b)))
  {
    if n :| n in x && Natural(n) == a {
      assert n in x + y;
    }
    if n :| n in y && Natural(n) == b {
      assert n in x + y;
    }
  }

  lemma {:induction false} KidsLargest(t: SizedType, n: nat)
    requires n <= KidCount(t)
    ensures Largest(KidAtoms(t, n), Strictest(Slots(t, n), n))
    decreases t, 0, n
  {
    hide Atoms, Alignment, ByteSize, Largest;
    if n > 0 {
      var kid := Kid(t, n - 1);
      KidsLargest(t, n - 1);
      AlignmentIsLargest(kid);
      StrictestNext(t, n);
      hide Slots, Strictest;
      LargerOf(KidAtoms(t, n - 1), Atoms(kid), Strictest(Slots(t, n - 1), n - 1), Alignment(kid));
    } else {
      NoneLarge();
    }
  }

  lemma NoneLarge()
    ensures Largest({}, 1)
  {
  }

  // ---------- equal types ----------

  /** Equal types have the same size and alignment. */
  lemma {:induction false} EqualSize(a: SizedType, b: SizedType)
    requires Compare(a, b) == Equal
    ensures ByteSize(a) == ByteSize(b) && Alignment(a) == Alignment(b)
    decreases a, 1, 0
  {
    match a
    case Array(_, x) => EqualSize(x, b.element);
    case Tuple(xs) => ElemsEqual(a, b, 0); EqualSlots(a, b, |xs|);
    case Record(fs) => FieldsEqual(a, b, 0); EqualSlots(a, b, |fs|);
    case _ =>
  }

  lemma {:induction false} ElemsEqual(a: SizedType, b: SizedType, i: nat)
    requires a.Tuple? && b.Tuple? && |a.elems| == |b.elems| && i <= |a.elems|
    requires CompareElems(a, b, i) == Equal
    ensures forall j :: i <= j < |a.elems| ==> Compare(a.elems[j], b.elems[j]) == Equal
    decreases |a.elems| - i
  {
    hide Compare;
    if i < |a.elems| {
      ElemsEqual(a, b, i + 1);
    }
  }

  lemma {:induction false} FieldsEqual(a: SizedType, b: SizedType, i: nat)
    requires a.Record? && b.Record? && |a.fields| == |b.fields| && i <= |a.fields|
    requires CompareFields(a, b, i) == Equal
    ensures forall j :: i <= j < |a.fields| ==>
      a.fields[j].name == b.fields[j].name && Compare(a.fields[j].ty, b.fields[j].ty) == Equal
    decreases |a.fields| - i
  {
    hide Compare, CompareText;
    if i < |a.fields| {
      TextFlips(a.fields[i].name, b.fields[i].name);
      FieldsEqual(a, b, i + 1);
    }
  }

  lemma {:induction false} EqualSlots(a: SizedType, b: SizedType, n: nat)
    requires n <= KidCount(a) == KidCount(b)
    requires forall i :: 0 <= i < n ==> Compare(Kid(a, i), Kid(b, i)) == Equal
    ensures Slots(a, n) == Slots(b, n)
    decreases a, 0, n
  {
    hide Compare, ByteSize, Alignment;
    if n > 0 {
      EqualSlots(a, b, n - 1);
      EqualSize(Kid(a, n - 1), Kid(b, n - 1));
    }
  }
}
