/** The bits of a bitmap block, which fs.c and mkfs.c pick out of its bytes with masks. */
module Bitmap {
  import opened Common

  function Mask(k: nat): bv8
    requires k < 8
  {
    1 << k
  }

  /** Bit b of the block. */
  predicate Bit(data: seq<bv8>, b: nat)
    requires b < 8 * |data|
  {
    data[b / 8] & Mask(b % 8) != 0
  }

  /** The block as the model of the file system has it. */
  ghost function Bits(data: seq<bv8>): (r: seq<bool>)
    ensures |r| == 8 * |data|
  {
    seq(8 * |data|, b requires 0 <= b < 8 * |data| => Bit(data, b))
  }

  lemma Masks()
    ensures Mask(0) == 1 && Mask(1) == 2 && Mask(2) == 4 && Mask(3) == 8
    ensures Mask(4) == 16 && Mask(5) == 32 && Mask(6) == 64 && Mask(7) == 128
  {
  }

  /** What `x | m` and `x & ~m` do to each bit of a byte. */
  lemma OneBit(x: bv8, m: bv8, k: bv8)
    requires m == 1 || m == 2 || m == 4 || m == 8 || m == 16 || m == 32 || m == 64 || m == 128
    requires k == 1 || k == 2 || k == 4 || k == 8 || k == 16 || k == 32 || k == 64 || k == 128
    ensures ((x | m) & k != 0) == (k == m || x & k != 0)
    ensures ((x & !m) & k != 0) == (k != m && x & k != 0)
  {
  }

  lemma MaskIsPower(k: nat)
    requires k < 8
    ensures var m := Mask(k);
      m == 1 || m == 2 || m == 4 || m == 8 || m == 16 || m == 32 || m == 64 || m == 128
    ensures forall j: nat :: j < 8 && j != k ==> Mask(j) != Mask(k)
  {
    Masks();
  }

  lemma ByteChanges(data: seq<bv8>, i: nat, b: nat)
    requires i < 8 * |data| && b < 8 * |data|
    ensures var x, m := data[i / 8], Mask(i % 8);
      && Bit(data[i / 8 := x | m], b) == (b == i || Bit(data, b))
      && Bit(data[i / 8 := x & !m], b) == (b != i && Bit(data, b))
  {
    MaskIsPower(i % 8);
    MaskIsPower(b % 8);
    OneBit(data[i / 8], Mask(i % 8), Mask(b % 8));
    if b / 8 == i / 8 && b % 8 == i % 8 { assert b == i; }
  }

  /** Only bit i differs, and it is v. */
  ghost predicate Flips(data: seq<bv8>, data': seq<bv8>, i: nat, v: bool)
    requires i < 8 * |data|
  {
    |data'| == |data| && forall b :: 0 <= b < 8 * |data| ==> Bit(data', b) == if b == i then v else Bit(data, b)
  }

  lemma FlipsBits(data: seq<bv8>, data': seq<bv8>, i: nat, v: bool)
    requires i < 8 * |data| && Flips(data, data', i, v)
    ensures Bits(data') == Bits(data)[i := v]
  {
  }

  function WithBit(data: seq<bv8>, i: nat): (r: seq<bv8>)
    requires i < 8 * |data|
    ensures |r| == |data|
  {
    data[i / 8 := data[i / 8] | Mask(i % 8)]
  }

  function WithoutBit(data: seq<bv8>, i: nat): (r: seq<bv8>)
    requires i < 8 * |data|
    ensures |r| == |data|
  {
    data[i / 8 := data[i / 8] & !Mask(i % 8)]
  }

  lemma SetFlips(data: seq<bv8>, i: nat)
    requires i < 8 * |data|
    ensures Bits(WithBit(data, i)) == Bits(data)[i := true]
  {
    forall b | 0 <= b < 8 * |data| ensures Bit(WithBit(data, i), b) == if b == i then true else Bit(data, b) {
      ByteChanges(data, i, b);
    }
    FlipsBits(data, WithBit(data, i), i, true);
  }

  lemma ClearFlips(data: seq<bv8>, i: nat)
    requires i < 8 * |data|
    ensures Bits(WithoutBit(data, i)) == Bits(data)[i := false]
  {
    forall b | 0 <= b < 8 * |data| ensures Bit(WithoutBit(data, i), b) == if b == i then false else Bit(data, b) {
      ByteChanges(data, i, b);
    }
    FlipsBits(data, WithoutBit(data, i), i, false);
  }

  /** `data[i/8] |= 1 << (i % 8)` */
  method SetBit(data: array<bv8>, i: nat)
    requires i < 8 * data.Length
    modifies data
    ensures Bits(data[..]) == Bits(old(data[..]))[i := true]
  {
    SetFlips(data[..], i);
    data[i / 8] := data[i / 8] | Mask(i % 8);
    assert data[..] == WithBit(old(data[..]), i);
  }

  /** The inner loop of the kernel's `balloc`: the first clear bit among the first n, which is set. */
  method TakeBit(data: array<bv8>, n: nat) returns (r: Option<nat>)
    requires n <= 8 * data.Length
    modifies data
    ensures match r
      case Some(b) =>
        && b < n && !Bits(old(data[..]))[b] && (forall k :: 0 <= k < b ==> Bits(old(data[..]))[k])
        && Bits(data[..]) == Bits(old(data[..]))[b := true]
      case None => data[..] == old(data[..]) && forall k :: 0 <= k < n ==> Bits(data[..])[k]
  {
    var bi := 0;
    while bi < n
      invariant bi <= n && data[..] == old(data[..])
      invariant forall k :: 0 <= k < bi ==> Bits(data[..])[k]
    {
      var used := TestBit(data, bi);
      if !used {
        SetBit(data, bi);
        return Some(bi);
      }
      bi := bi + 1;
    }
    r := None;
  }

  /** `data[i/8] & (1 << (i % 8))` */
  method TestBit(data: array<bv8>, i: nat) returns (r: bool)
    requires i < 8 * data.Length
    ensures r == Bits(data[..])[i]
  {
    r := data[i / 8] & Mask(i % 8) != 0;
    assert r == Bit(data[..], i);
  }

  /** `bfree` in the block: a clear bit is the panic, a set one is cleared, and no other changes. */
  method DropBit(data: array<bv8>, bi: nat) returns (ok: bool)
    requires bi < 8 * data.Length
    modifies data
    ensures ok == Bits(old(data[..]))[bi]
    ensures Bits(data[..]) == Bits(old(data[..]))[bi := false]
  {
    ok := TestBit(data, bi);
    if ok {
      ClearFlips(data[..], bi);
      data[bi / 8] := data[bi / 8] & !Mask(bi % 8);
      assert data[..] == WithoutBit(old(data[..]), bi);
    }
  }

  /** What `bfree` drops, `balloc` takes again if no lower bit is clear: they undo each other. */
  method DropThenTake(data: array<bv8>, bi: nat)
    requires bi < 8 * data.Length && forall k :: 0 <= k <= bi ==> Bits(data[..])[k]
    modifies data
    ensures Bits(data[..]) == Bits(old(data[..]))
  {
    var ok := DropBit(data, bi);
    var r := TakeBit(data, 8 * data.Length);
    assert !Bits(old(data[..]))[bi := false][bi];
    assert r == Some(bi);
  }

  /** `balloc` of mkfs: the first `used` bits are set and no other. */
  method MarkUsed(data: array<bv8>, used: nat)
    requires used <= 8 * data.Length
    modifies data
    ensures forall b :: 0 <= b < 8 * data.Length ==> Bits(data[..])[b] == (b < used)
  {
    var i := 0;
    while i < data.Length
      invariant i <= data.Length && forall k :: 0 <= k < i ==> data[k] == 0
    {
      data[i] := 0;
      i := i + 1;
    }
    AllClear(data[..]);
    i := 0;
    while i < used
      invariant i <= used && forall b :: 0 <= b < 8 * data.Length ==> Bits(data[..])[b] == (b < i)
    {
      SetBit(data, i);
      i := i + 1;
    }
  }

  lemma AllClear(data: seq<bv8>)
    requires forall k :: 0 <= k < |data| ==> data[k] == 0
    ensures forall b :: 0 <= b < 8 * |data| ==> !Bits(data)[b]
  {
    forall b | 0 <= b < 8 * |data| ensures !Bits(data)[b] {
      assert data[b / 8] == 0;
    }
  }
}
