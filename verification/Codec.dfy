/** Byte strings as sequences of fixed-width integers and counted lists, with the
    reader that accepts exactly what the writer writes. */
module Codec {
  import opened Common

  type Bytes = seq<byte>

  // --------------------------------------------------------------------- integers

  function LittleEndian(n: nat, width: nat): (bytes: Bytes)
    ensures |bytes| == width
  {
    if width == 0 then [] else [n % 0x100] + LittleEndian(n / 0x100, width - 1)
  }

  function FromLittleEndian(bytes: Bytes): nat {
    if bytes == [] then 0 else bytes[0] + 0x100 * FromLittleEndian(bytes[1..])
  }

  function Pow256(width: nat): (r: nat)
    ensures r > 0
  {
    if width == 0 then 1 else 0x100 * Pow256(width - 1)
  }

  lemma Pow256Widths()
    ensures Pow256(4) == 0x1_0000_0000 && Pow256(8) == 0x1_0000_0000_0000_0000
  {
    assert Pow256(2) == 0x1_0000;
    assert Pow256(4) == 0x100 * (0x100 * Pow256(2));
    assert Pow256(6) == 0x100 * (0x100 * Pow256(4));
    assert Pow256(8) == 0x100 * (0x100 * Pow256(6));
  }

  lemma {:induction false} ReadBack(n: nat, width: nat)
    requires n < Pow256(width)
    ensures FromLittleEndian(LittleEndian(n, width)) == n
  {
    if width > 0 {
      ReadBack(n / 0x100, width - 1);
      assert LittleEndian(n, width)[1..] == LittleEndian(n / 0x100, width - 1);
    }
  }

  lemma {:induction false} WriteBack(bytes: Bytes)
    ensures FromLittleEndian(bytes) < Pow256(|bytes|)
    ensures LittleEndian(FromLittleEndian(bytes), |bytes|) == bytes
  {
    if bytes != [] {
      WriteBack(bytes[1..]);
    }
  }

  /** The low byte comes first. */
  lemma {:induction false} LowByteFirst(n: nat, width: nat, k: nat)
    requires k < width
    ensures LittleEndian(n, width)[k] == n / Pow256(k) % 0x100
  {
    if k > 0 {
      LowByteFirst(n / 0x100, width - 1, k - 1);
      DivideOn(n, Pow256(k - 1));
    }
  }

  lemma DivideOn(n: nat, d: nat)
    requires d > 0
    ensures n / 0x100 / d == n / (0x100 * d)
  {
    var q, r, s := n / 0x100 / d, n / 0x100 % d, n % 0x100;
    assert n / 0x100 == d * q + r && n == 0x100 * (n / 0x100) + s;
    assert n == 0x100 * d * q + (0x100 * r + s);
    QuotientOf(n, 0x100 * d, q, 0x100 * r + s);
  }

  lemma QuotientOf(n: nat, d: nat, q: nat, r: nat)
    requires r < d && n == d * q + r
    ensures n / d == q
  {
    var x := n / d;
    assert n == d * x + n % d;
    if x < q { More(d, x + 1, q); }
    if x > q { More(d, q + 1, x); }
  }

  lemma More(d: nat, x: nat, y: nat)
    requires x <= y
    ensures d * x <= d * y
  {
  }

  /** Reads `width` bytes off the front. */
  function ReadInt(input: Bytes, width: nat): (r: Option<(nat, Bytes)>)
    ensures r.Some? && width == 4 ==> r.value.0 < 0x1_0000_0000
    ensures r.Some? && width == 8 ==> r.value.0 < 0x1_0000_0000_0000_0000
  {
    if |input| < width then None
    else
      WriteBack(input[..width]);
      Pow256Widths();
      Some((FromLittleEndian(input[..width]), input[width..]))
  }

  /** Grouping does not matter to what is written. */
  lemma Regroup(a: Bytes, b: Bytes, c: Bytes)
    ensures (a + b) + c == a + (b + c)
  {
  }

  lemma ReadWritten(n: nat, width: nat, rest: Bytes)
    requires n < Pow256(width)
    ensures ReadInt(LittleEndian(n, width) + rest, width) == Some((n, rest))
  {
    ReadBack(n, width);
    assert (LittleEndian(n, width) + rest)[..width] == LittleEndian(n, width);
    assert (LittleEndian(n, width) + rest)[width..] == rest;
  }

  lemma ReadIsWritten(input: Bytes, width: nat)
    ensures ReadInt(input, width).Some? ==>
      input == LittleEndian(ReadInt(input, width).value.0, width) + ReadInt(input, width).value.1
      && ReadInt(input, width).value.0 < Pow256(width)
  {
    if |input| >= width {
      WriteBack(input[..width]);
    }
  }

  // ------------------------------------------------------------------------ lists

  function WriteAll<T>(items: seq<T>, write: T -> Bytes): Bytes {
    if items == [] then [] else write(items[0]) + WriteAll(items[1..], write)
  }

  lemma {:induction false} WriteAllAppend<T>(items: seq<T>, x: T, write: T -> Bytes)
    ensures WriteAll(items + [x], write) == WriteAll(items, write) + write(x)
  {
    if items == [] {
      assert items + [x] == [x];
    } else {
      assert (items + [x])[1..] == items[1..] + [x];
      WriteAllAppend(items[1..], x, write);
    }
  }

  /** Reads `n` items after `before`, each accepted by `ok` against those already
      read. */
  ghost function ReadAll<T>(input: Bytes, n: nat, before: seq<T>, read: Bytes -> Option<(T, Bytes)>,
                            ok: (seq<T>, T) -> bool): Option<(seq<T>, Bytes)>
    decreases n
  {
    if n == 0 then Some((before, input))
    else
      match read(input)
      case None => None
      case Some((x, rest)) =>
        if ok(before, x) then ReadAll(rest, n - 1, before + [x], read, ok) else None
  }

  /** Every item from `from` on is accepted against those before it. */
  ghost predicate AllOk<T>(items: seq<T>, from: nat, ok: (seq<T>, T) -> bool) {
    forall k | from <= k < |items| :: ok(items[..k], items[k])
  }

  /** A reader and a writer of one item that undo each other on the items of `fits`. */
  ghost predicate Inverse<T(!new)>(read: Bytes -> Option<(T, Bytes)>, write: T -> Bytes, fits: T -> bool) {
    && (forall x: T, rest: Bytes | fits(x) :: read(write(x) + rest) == Some((x, rest)))
    && (forall input: Bytes | read(input).Some? ::
          fits(read(input).value.0) && input == write(read(input).value.0) + read(input).value.1)
  }

  lemma {:induction false} ReadWrittenAll<T(!new)>(items: seq<T>, from: nat, rest: Bytes,
      read: Bytes -> Option<(T, Bytes)>, write: T -> Bytes, fits: T -> bool, ok: (seq<T>, T) -> bool)
    requires Inverse(read, write, fits) && from <= |items| && AllOk(items, from, ok)
    requires forall x | x in items :: fits(x)
    ensures ReadAll(WriteAll(items[from..], write) + rest, |items| - from, items[..from], read, ok)
         == Some((items, rest))
    decreases |items| - from
  {
    if from < |items| {
      var x := items[from];
      var more := WriteAll(items[from + 1..], write) + rest;
      assert items[from..][1..] == items[from + 1..];
      assert WriteAll(items[from..], write) + rest == write(x) + more;
      assert items[..from] + [x] == items[..from + 1];
      ReadWrittenAll(items, from + 1, rest, read, write, fits, ok);
    } else {
      assert items[..from] == items;
      assert WriteAll(items[from..], write) + rest == rest;
    }
  }

  lemma {:induction false} ReadAllIsWritten<T(!new)>(input: Bytes, n: nat, before: seq<T>,
      read: Bytes -> Option<(T, Bytes)>, write: T -> Bytes, fits: T -> bool, ok: (seq<T>, T) -> bool)
    requires Inverse(read, write, fits) && ReadAll(input, n, before, read, ok).Some?
    ensures var all := ReadAll(input, n, before, read, ok).value.0;
      && |all| == |before| + n && all[..|before|] == before && AllOk(all, |before|, ok)
      && (forall k | |before| <= k < |all| :: fits(all[k]))
      && input == WriteAll(all[|before|..], write) + ReadAll(input, n, before, read, ok).value.1
    decreases n
  {
    if n > 0 {
      var x, rest := read(input).value.0, read(input).value.1;
      ReadAllIsWritten(rest, n - 1, before + [x], read, write, fits, ok);
      var all := ReadAll(input, n, before, read, ok).value.0;
      assert all[..|before| + 1][..|before|] == before;
      assert all[|before|] == all[..|before| + 1][|before|] == x;
      assert all[|before|..][1..] == all[|before| + 1..];
      assert all[..|before|] == before;
    }
  }
}
