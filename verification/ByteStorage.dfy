/** `CpuStorageBytes`: handles on reference-counted buffers, copied when written while shared. */
module ByteStorage {
  import opened Wrappers

  newtype Byte = b: int | 0 <= b < 256

  const CPU_ALIGN_BYTES := 64

  /** An `Arc<AlignedBytes>`: the bytes, and how many handles hold them. */
  class Buffer {
    const data: array<Byte>
    var strong: nat

    constructor (src: seq<Byte>)
      ensures fresh(data) && data[..] == src && strong == 1
    {
      data := new Byte[|src|](i requires 0 <= i < |src| => src[i]);
      strong := 1;
    }
  }

  /** All handles alive, by number, each on its buffer. */
  class Handles {
    var on: map<nat, Buffer>

    ghost function Holders(b: Buffer): set<nat>
      reads this
    {
      set h | h in on && on[h] == b
    }

    ghost function Repr(): set<object>
      reads this
    {
      {this} + (set h | h in on :: on[h]) + (set h | h in on :: on[h].data)
    }

    ghost predicate Counted(b: Buffer)
      reads this, b
    {
      b.strong == |Holders(b)|
    }

    /** Counts are exact, and no two buffers share bytes. */
    ghost predicate Valid()
      reads Repr()
    {
      && (forall h :: h in on ==> Counted(on[h]))
      && (forall h, k :: h in on && k in on && on[h] != on[k] ==> on[h].data != on[k].data)
    }

    /** What each handle reads. */
    ghost function View(): map<nat, seq<Byte>>
      reads Repr()
    {
      map h | h in on :: on[h].data[..]
    }

    constructor ()
      ensures Valid() && on == map[] && View() == map[]
    {
      on := map[];
    }

    /** `from_bytes`. */
    method FromBytes(dst: nat, src: seq<Byte>)
      requires Valid() && dst !in on
      modifies this
      ensures Valid() && dst in on && fresh(on[dst]) && fresh(on[dst].data) && on == old(on)[dst := on[dst]]
      ensures View() == old(View())[dst := src]
    {
      var b := new Buffer(src);
      on := on[dst := b];
      assert Holders(b) == {dst};
      forall h | h in old(on) ensures Counted(on[h]) {
        assert Holders(on[h]) == old(Holders(on[h]));
      }
    }

    /** `clone`: one more holder, no copy. */
    method Clone(src: nat, dst: nat)
      requires Valid() && src in on && dst !in on
      modifies this, on[src]
      ensures Valid() && on == old(on)[dst := old(on)[src]]
      ensures View() == old(View())[dst := old(View())[src]]
    {
      var b := on[src];
      b.strong := b.strong + 1;
      on := on[dst := b];
      assert Holders(b) == old(Holders(on[src])) + {dst};
      forall h | h in old(on) && on[h] != b ensures Counted(on[h]) {
        assert Holders(on[h]) == old(Holders(on[h]));
      }
    }

    /** `drop`: one holder less; the last one frees the buffer. */
    method Drop(h: nat)
      requires Valid() && h in on
      modifies this, on[h]
      ensures Valid() && on == old(on) - {h}
      ensures View() == old(View()) - {h}
    {
      var b := on[h];
      assert h in Holders(b);
      b.strong := b.strong - 1;
      on := on - {h};
      assert Holders(b) == old(Holders(on[h])) - {h};
      forall k | k in on && on[k] != b ensures Counted(on[k]) {
        assert Holders(on[k]) == old(Holders(on[k]));
      }
    }

    /** `is_uniquely_owned`. */
    method IsUniquelyOwned(h: nat) returns (r: bool)
      requires Valid() && h in on
      ensures r <==> forall k :: k in on && k != h ==> on[k] != on[h]
    {
      r := on[h].strong == 1;
      Alone(h);
    }

    lemma Alone(h: nat)
      requires Valid() && h in on
      ensures on[h].strong == 1 <==> forall k :: k in on && k != h ==> on[k] != on[h]
    {
      var s := Holders(on[h]);
      assert h in s;
      if s == {h} {
        forall k | k in on && k != h ensures on[k] != on[h] {
          assert k !in s;
        }
      } else {
        var k :| k in s && k != h;
        assert s == {h, k} + (s - {h, k});
      }
    }

    /** `Arc::make_mut`: a shared handle moves to a copy of its own first. */
    method MakeMut(h: nat)
      requires Valid() && h in on
      modifies this, on[h]
      ensures Valid() && h in on && on == old(on)[h := on[h]] && on[h].strong == 1
      ensures if old(on[h].strong) == 1 then on[h] == old(on[h]) else fresh(on[h]) && fresh(on[h].data)
      ensures View() == old(View())
    {
      Alone(h);
      var b := on[h];
      if b.strong == 1 {
        return;
      }
      var c := new Buffer(b.data[..]);
      assert h in Holders(b);
      b.strong := b.strong - 1;
      on := on[h := c];
      assert Holders(c) == {h};
      assert Holders(b) == old(Holders(on[h])) - {h};
      forall k | k in on && on[k] != b && on[k] != c ensures Counted(on[k]) {
        assert Holders(on[k]) == old(Holders(on[k]));
      }
    }

    /** A store through `bytes_mut`. */
    method Write(h: nat, i: nat, v: Byte)
      requires Valid() && h in on && i < on[h].data.Length
      modifies this, on[h], on[h].data
      ensures Valid() && h in on && on == old(on)[h := on[h]]
      ensures if old(on[h].strong) == 1 then on[h] == old(on[h]) else fresh(on[h]) && fresh(on[h].data)
      ensures View() == old(View())[h := old(View())[h][i := v]]
    {
      ghost var before := View();
      MakeMut(h);
      assert |before[h]| == on[h].data.Length by { assert View()[h] == before[h]; }
      Alone(h);
      on[h].data[i] := v;
    }

    /** `as_slice_mut::<T>` for a `T` of `size` bytes: refused before anything is copied, or a view
        of `len / size` elements that nobody else sees. For a type without size `cast` is what the
        cast, which is not part of this model, answers: a length, or nothing if it fails. */
    method AsSliceMut(h: nat, size: nat, align: nat, cast: Option<nat>) returns (r: Result<nat>)
      requires Valid() && h in on
      modifies this, on[h]
      ensures Valid() && h in on && View() == old(View())
      ensures r == Err(SizeMismatch) <==> size > 0 && old(on[h].data.Length) % size != 0
      ensures r == Err(Misaligned) <==> r != Err(SizeMismatch) && align > 64
      ensures r == Err(CastFailed) <==> size == 0 && align <= 64 && cast.None?
      ensures r.Err? ==> r.error in {SizeMismatch, Misaligned, CastFailed}
      ensures r.Ok? ==> if size == 0 then cast == Some(r.value) else r.value * size == on[h].data.Length
      ensures if r == Err(SizeMismatch) || r == Err(Misaligned) then on == old(on) && on[h].strong == old(on[h].strong)
              else on[h].strong == 1
    {
      if size != 0 && on[h].data.Length % size != 0 {
        return Err(SizeMismatch);
      }
      if align > CPU_ALIGN_BYTES {
        return Err(Misaligned);
      }
      ghost var before := View();
      MakeMut(h);
      assert |before[h]| == on[h].data.Length by { assert View()[h] == before[h]; }
      if size == 0 {
        r := if cast.Some? then Ok(cast.value) else Err(CastFailed);
      } else {
        r := Ok(on[h].data.Length / size);
      }
    }
  }

  // ---------------------------------------------------------------- every run

  datatype Op = FromBytes(dst: nat, src: seq<Byte>) | Clone(from: nat, to: nat) | Write(h: nat, i: nat, v: Byte)
      | Drop(gone: nat)

  /** What an operation does to values that belong to one holder each. Operations that ownership
      rules out, on handles that are gone or not free, do nothing. */
  ghost function Step(view: map<nat, seq<Byte>>, op: Op): map<nat, seq<Byte>> {
    match op
    case FromBytes(dst, src) => if dst in view then view else view[dst := src]
    case Clone(from, to) => if from in view && to !in view then view[to := view[from]] else view
    case Write(h, i, v) => if h in view && i < |view[h]| then view[h := view[h][i := v]] else view
    case Drop(h) => view - {h}
  }

  ghost function Steps(view: map<nat, seq<Byte>>, ops: seq<Op>): map<nat, seq<Byte>> {
    if |ops| == 0 then view else Step(Steps(view, ops[..|ops| - 1]), ops[|ops| - 1])
  }

  method RunWrite(s: Handles, h: nat, i: nat, v: Byte)
    requires s.Valid()
    modifies s.Repr()
    ensures s.Valid() && fresh(s.Repr() - old(s.Repr()))
    ensures s.View() == Step(old(s.View()), Op.Write(h, i, v))
  {
    if h in s.on && i < s.on[h].data.Length { s.Write(h, i, v); }
  }

  method RunClone(s: Handles, from: nat, to: nat)
    requires s.Valid()
    modifies s.Repr()
    ensures s.Valid() && fresh(s.Repr() - old(s.Repr()))
    ensures s.View() == Step(old(s.View()), Op.Clone(from, to))
  {
    if from in s.on && to !in s.on { s.Clone(from, to); }
  }

  /** One operation on the shared buffers. */
  method RunOne(s: Handles, op: Op)
    requires s.Valid()
    modifies s.Repr()
    ensures s.Valid() && fresh(s.Repr() - old(s.Repr()))
    ensures s.View() == Step(old(s.View()), op)
  {
    match op
    case FromBytes(dst, src) =>
      if dst !in s.on { s.FromBytes(dst, src); }
    case Clone(from, to) => RunClone(s, from, to);
    case Write(h, i, v) => RunWrite(s, h, i, v);
    case Drop(h) =>
      if h in s.on { s.Drop(h); } else { assert s.View() - {h} == s.View(); }
  }

  /** Any run, in any order: the handles read as if every one of them had bytes of its own. */
  method Run(s: Handles, ops: seq<Op>)
    requires s.Valid()
    modifies s.Repr()
    ensures s.Valid() && s.View() == Steps(old(s.View()), ops)
  {
    assert ops[..|ops|] == ops;
    for k := 0 to |ops|
      invariant s.Valid() && fresh(s.Repr() - old(s.Repr()))
      invariant s.View() == Steps(old(s.View()), ops[..k])
    {
      assert ops[..k + 1][..k] == ops[..k];
      RunOne(s, ops[k]);
    }
  }

  predicate Touches(op: Op, k: nat) { (op.Write? && op.h == k) || (op.Drop? && op.gone == k) }

  /** Whatever a run does through other handles, clones of it included, a handle reads on as before. */
  lemma {:induction false} UntouchedKeeps(view: map<nat, seq<Byte>>, ops: seq<Op>, k: nat)
    requires k in view && forall q :: 0 <= q < |ops| ==> !Touches(ops[q], k)
    ensures k in Steps(view, ops) && Steps(view, ops)[k] == view[k]
  {
    if |ops| > 0 {
      UntouchedKeeps(view, ops[..|ops| - 1], k);
    }
  }
}
