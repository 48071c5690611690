/** Laying out the fields of a tuple or record: each at the next offset its alignment allows, the whole
    padded to the strictest alignment. */
module Layout {
  import opened Words

  /** What the layout needs to know of a field. */
  datatype Slot = Slot(size: nat, align: nat)

  datatype Struct = Struct(size: nat, align: nat, padded: bool, offsets: seq<nat>)

  ghost predicate Alignable(slots: seq<Slot>) {
    forall i :: 0 <= i < |slots| ==> slots[i].align > 0
  }

  function Max(a: nat, b: nat): nat {
    if a < b then b else a
  }

  // ---------- rounding up ----------

  function Padding(offset: nat, align: nat): (p: nat)
    requires align > 0
  {
    (align - offset % align) % align
  }

  predicate Aligned(offset: nat, align: nat)
    requires align > 0
  {
    offset % align == 0
  }

  lemma {:induction false} MulMonotone(k: int, q: int, m: nat)
    ensures k <= q ==> k * m <= q * m
    decreases q - k
  {
    if k < q {
      MulMonotone(k, q - 1, m);
      assert q * m == (q - 1) * m + m;
    }
  }

  /** Padding leads to the least aligned offset that is not smaller. */
  lemma PaddingLeast(offset: nat, align: nat, x: nat)
    requires align > 0
    ensures Aligned(offset + Padding(offset, align), align) && Padding(offset, align) < align
    ensures x >= offset && Aligned(x, align) ==> x >= offset + Padding(offset, align)
  {
    var q, r := offset / align, offset % align;
    assert offset == q * align + r;
    if r == 0 {
      DivModUnique(align, align, 1, 0);
    } else {
      DivModUnique(align - r, align, 0, align - r);
      assert (q + 1) * align == q * align + align;
      DivModUnique(offset + (align - r), align, q + 1, 0);
      if x >= offset && Aligned(x, align) {
        assert x == (x / align) * align;
        MulMonotone(x / align, q, align);
        MulMonotone(q + 1, x / align, align);
      }
    }
  }

  // ---------- offsets ----------

  /** The end of the first `n` fields. */
  function End(slots: seq<Slot>, n: nat): nat
    requires Alignable(slots) && n <= |slots|
    decreases n, 0
  {
    if n == 0 then 0 else Start(slots, n - 1) + slots[n - 1].size
  }

  function Start(slots: seq<Slot>, i: nat): nat
    requires Alignable(slots) && i < |slots|
    decreases i, 1
  {
    End(slots, i) + Padding(End(slots, i), slots[i].align)
  }

  function Strictest(slots: seq<Slot>, n: nat): (a: nat)
    requires n <= |slots|
    ensures a >= 1
  {
    if n == 0 then 1 else Max(slots[n - 1].align, Strictest(slots, n - 1))
  }

  function Size(slots: seq<Slot>): nat
    requires Alignable(slots)
  {
    var end := End(slots, |slots|);
    end + Padding(end, Strictest(slots, |slots|))
  }

  /** Some field among the first `n` does not start where its predecessor ends. */
  ghost predicate Gap(slots: seq<Slot>, n: nat)
    requires Alignable(slots) && n <= |slots|
  {
    exists i :: 0 <= i < n && Start(slots, i) > End(slots, i)
  }

  method CreateRecord(slots: seq<Slot>) returns (record: Struct)
    requires Alignable(slots)
    ensures |record.offsets| == |slots|
    ensures forall i :: 0 <= i < |slots| ==> record.offsets[i] == Start(slots, i)
    ensures record.size == Size(slots) && record.align == Strictest(slots, |slots|)
    ensures record.padded <==> Gap(slots, |slots|)
  {
    var offset, align, padded, offsets := 0, 1, false, [];
    for n := 0 to |slots|
      invariant offset == End(slots, n) && align == Strictest(slots, n) && |offsets| == n
      invariant forall i :: 0 <= i < n ==> offsets[i] == Start(slots, i)
      invariant padded <==> Gap(slots, n)
    {
      align := Max(slots[n].align, align);
      var padding := Padding(offset, slots[n].align);
      if padding > 0 {
        padded := true;
        assert Start(slots, n) > End(slots, n);
      }
      offset := offset + padding;
      offsets := offsets + [offset];
      offset := offset + slots[n].size;
    }
    record := Struct(offset + Padding(offset, align), align, padded, offsets);
  }

  // ---------- what the offsets are good for ----------

  /** Any way to place the fields in order, aligned and without overlap. */
  ghost predicate Fair(slots: seq<Slot>, at: seq<nat>)
    requires Alignable(slots)
  {
    && |at| == |slots|
    && (forall i :: 0 <= i < |slots| ==> Aligned(at[i], slots[i].align))
    && (forall i :: 0 < i < |slots| ==> at[i] >= at[i - 1] + slots[i - 1].size)
  }

  lemma {:induction false} EndsGrow(slots: seq<Slot>, i: nat, j: nat)
    requires Alignable(slots) && i <= j <= |slots|
    ensures End(slots, i) <= End(slots, j)
    decreases j
  {
    if i < j {
      EndsGrow(slots, i, j - 1);
    }
  }

  /** Fields keep their order, do not overlap, are aligned, and stay inside the struct. */
  lemma FieldsApart(slots: seq<Slot>, i: nat, j: nat)
    requires Alignable(slots) && i < j < |slots|
    ensures Start(slots, i) + slots[i].size <= Start(slots, j)
    ensures Aligned(Start(slots, j), slots[j].align) && Start(slots, j) + slots[j].size <= Size(slots)
  {
    EndsGrow(slots, i + 1, j);
    EndsGrow(slots, j + 1, |slots|);
    PaddingLeast(End(slots, j), slots[j].align, 0);
  }

  lemma FieldInside(slots: seq<Slot>, i: nat)
    requires Alignable(slots) && i < |slots|
    ensures Aligned(Start(slots, i), slots[i].align) && Start(slots, i) + slots[i].size <= Size(slots)
  {
    EndsGrow(slots, i + 1, |slots|);
    PaddingLeast(End(slots, i), slots[i].align, 0);
  }

  /** The layout is itself fair, and no fair way to place the fields puts any of them earlier. */
  lemma {:induction false} LayoutIsLeast(slots: seq<Slot>, at: seq<nat>, i: nat)
    requires Alignable(slots) && Fair(slots, at) && i < |slots|
    ensures Start(slots, i) <= at[i]
    decreases i
  {
    if i > 0 {
      LayoutIsLeast(slots, at, i - 1);
    }
    PaddingLeast(End(slots, i), slots[i].align, at[i]);
  }

  lemma LayoutIsFair(slots: seq<Slot>, at: seq<nat>)
    requires Alignable(slots) && |at| == |slots|
    requires forall i :: 0 <= i < |slots| ==> at[i] == Start(slots, i)
    ensures Fair(slots, at)
  {
    forall i | 0 <= i < |slots|
      ensures Aligned(at[i], slots[i].align)
    {
      FieldInside(slots, i);
    }
    forall i | 0 < i < |slots|
      ensures at[i] >= at[i - 1] + slots[i - 1].size
    {
      assert Start(slots, i) >= End(slots, i);
    }
  }

  /** No fair struct of a size that is a multiple of the strictest alignment is smaller. */
  lemma SizeIsLeast(slots: seq<Slot>, at: seq<nat>, size: nat)
    requires Alignable(slots) && Fair(slots, at) && Aligned(size, Strictest(slots, |slots|))
    requires |slots| > 0 ==> at[|slots| - 1] + slots[|slots| - 1].size <= size
    ensures Size(slots) <= size && Aligned(Size(slots), Strictest(slots, |slots|))
  {
    if |slots| > 0 {
      LayoutIsLeast(slots, at, |slots| - 1);
    }
    PaddingLeast(End(slots, |slots|), Strictest(slots, |slots|), size);
  }
}
