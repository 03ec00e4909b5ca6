/** Big-endian cursor reads over the immutable input buffer
    (`readUInt8`, `readUInt16`, `readUInt32`).

    The C++ readers take `const uint8_t*` and a `std::size_t& pos`; here the
    buffer is a sequence value (so no read can change it) and the advanced
    position is returned beside the value. */
module ByteReader {
  import opened DecodeResult

  newtype uint8 = x: int | 0 <= x < 0x100
  newtype uint16 = x: int | 0 <= x < 0x1_0000
  newtype uint32 = x: int | 0 <= x < 0x1_0000_0000

  /** Reference reading of a byte string as an unsigned big-endian number:
      the first byte is the most significant. */
  function BigEndian(bs: seq<uint8>): nat
  {
    if bs == [] then 0 else BigEndian(bs[..|bs| - 1]) * 0x100 + bs[|bs| - 1] as nat
  }

  function Pow256(n: nat): (r: nat)
    ensures r >= 1
  {
    if n == 0 then 1 else 0x100 * Pow256(n - 1)
  }

  lemma {:induction false} BigEndianBound(bs: seq<uint8>)
    ensures BigEndian(bs) < Pow256(|bs|)
  {
    if bs != [] {
      BigEndianBound(bs[..|bs| - 1]);
    }
  }

  /** The big-endian u16 stored at `i`: `(buf[i] << 8) | buf[i + 1]`
      (0 when it does not fit, which no caller lets happen). */
  function U16At(buf: seq<uint8>, i: nat): uint16
  {
    if i + 2 <= |buf| then (buf[i] as int * 0x100 + buf[i + 1] as int) as uint16 else 0
  }

  /** The big-endian u32 stored at `i`: its high half, then its low half. */
  function U32At(buf: seq<uint8>, i: nat): uint32
  {
    if i + 4 <= |buf| then (U16At(buf, i) as int * 0x1_0000 + U16At(buf, i + 2) as int) as uint32 else 0
  }

  /** The byte at offset `i` of `buf` (0 when out of range). */
  function U8At(buf: seq<uint8>, i: nat): (v: uint8)
    ensures i < |buf| ==> v == buf[i]
  {
    if i < |buf| then buf[i] else 0
  }

  /** The fields agree with the reference reading of their bytes. */
  lemma {:induction false} U16AtIsBigEndian(buf: seq<uint8>, i: nat)
    requires i + 2 <= |buf|
    ensures U16At(buf, i) as nat == BigEndian(buf[i..i + 2])
  {
    assert buf[i..i + 2] == [buf[i], buf[i + 1]];
    BigEndianTwo(buf[i], buf[i + 1]);
  }

  lemma {:induction false} U32AtIsBigEndian(buf: seq<uint8>, i: nat)
    requires i + 4 <= |buf|
    ensures U32At(buf, i) as nat == BigEndian(buf[i..i + 4])
  {
    assert buf[i..i + 4] == [buf[i], buf[i + 1], buf[i + 2], buf[i + 3]];
    BigEndianFour(buf[i], buf[i + 1], buf[i + 2], buf[i + 3]);
  }

  /** `readUInt8`: the byte at `pos`, cursor advanced by exactly one. */
  function ReadUInt8(buf: seq<uint8>, pos: nat): (r: Result<Parsed<uint8>>)
    ensures r.Ok? <==> pos + 1 <= |buf|
    ensures r.Ok? ==> r.value.next == pos + 1 && r.value.item == buf[pos]
    ensures r.Err? ==> r.error == OutOfBounds(pos, 1)
  {
    if pos + 1 <= |buf| then Ok(Parsed(buf[pos], pos + 1)) else Err(OutOfBounds(pos, 1))
  }

  lemma {:induction false} BigEndianTwo(a: uint8, b: uint8)
    ensures BigEndian([a, b]) == a as nat * 0x100 + b as nat
  {
    assert [a, b][..1] == [a];
    assert [a][..0] == [];
    assert BigEndian([a]) == BigEndian([]) * 0x100 + a as nat;
  }

  lemma {:induction false} BigEndianFour(a: uint8, b: uint8, c: uint8, d: uint8)
    ensures BigEndian([a, b, c, d]) == ((a as nat * 0x100 + b as nat) * 0x100 + c as nat) * 0x100 + d as nat
  {
    assert [a, b, c, d][..3] == [a, b, c];
    assert [a, b, c][..2] == [a, b];
    BigEndianTwo(a, b);
  }

  /** `readUInt16`: the u16 at `pos`, cursor advanced by exactly two. */
  function ReadUInt16(buf: seq<uint8>, pos: nat): (r: Result<Parsed<uint16>>)
    ensures r.Ok? <==> pos + 2 <= |buf|
    ensures r.Ok? ==> r.value.next == pos + 2 && r.value.item == U16At(buf, pos)
    ensures r.Err? ==> r.error == OutOfBounds(pos, 2)
  {
    if pos + 2 <= |buf| then Ok(Parsed(U16At(buf, pos), pos + 2)) else Err(OutOfBounds(pos, 2))
  }

  /** `readUInt32`: the u32 at `pos`, cursor advanced by exactly four. */
  function ReadUInt32(buf: seq<uint8>, pos: nat): (r: Result<Parsed<uint32>>)
    ensures r.Ok? <==> pos + 4 <= |buf|
    ensures r.Ok? ==> r.value.next == pos + 4 && r.value.item == U32At(buf, pos)
    ensures r.Err? ==> r.error == OutOfBounds(pos, 4)
  {
    if pos + 4 <= |buf| then Ok(Parsed(U32At(buf, pos), pos + 4)) else Err(OutOfBounds(pos, 4))
  }

  /** `n` bytes copied verbatim, as the byte-by-byte `push_back` loops do
      (Code's code array, SourceDebugExtension, Utf8 bytes). */
  function ReadBytes(buf: seq<uint8>, pos: nat, n: nat): (r: Result<Parsed<seq<uint8>>>)
    ensures r.Ok? <==> pos + n <= |buf|
    ensures r.Ok? ==> r.value.next == pos + n && r.value.item == buf[pos..pos + n]
  {
    if pos + n <= |buf| then Ok(Parsed(buf[pos..pos + n], pos + n)) else Err(OutOfBounds(pos, n))
  }

  /** Start of record `i` in a run of `width`-byte records beginning at `pos`
      (that is, `pos + i * width`, spelled without multiplication). */
  function RowStart(pos: nat, i: nat, width: nat): (p: nat)
    ensures p >= pos
  {
    if i == 0 then pos else RowStart(pos, i - 1, width) + width
  }

  lemma {:induction false} RowStartShift(pos: nat, i: nat, width: nat)
    ensures RowStart(pos + width, i, width) == RowStart(pos, i + 1, width)
  {
    if i > 0 {
      RowStartShift(pos, i - 1, width);
    }
  }

  lemma {:induction false} RowStartMonotone(pos: nat, i: nat, j: nat, width: nat)
    requires i <= j
    ensures RowStart(pos, i, width) + width <= RowStart(pos, j, width) + width
    ensures i < j ==> RowStart(pos, i, width) + width <= RowStart(pos, j, width)
  {
    if i < j {
      RowStartMonotone(pos, i, j - 1, width);
    }
  }

  /** `n` consecutive records of `width` bytes each, record `i` decoded by
      `row` at its start: the model of the counted `for` loops whose element
      loader reads a fixed number of bytes. */
  function ReadRows<T>(buf: seq<uint8>, pos: nat, n: nat, width: nat, row: (seq<uint8>, nat) -> T)
    : (r: Result<Parsed<seq<T>>>)
    ensures r.Ok? <==> n == 0 || RowStart(pos, n, width) <= |buf|
    ensures r.Ok? ==> r.value.next == RowStart(pos, n, width) && |r.value.item| == n
    ensures r.Ok? ==> forall i :: 0 <= i < n ==>
      RowStart(pos, i, width) + width <= |buf| && r.value.item[i] == row(buf, RowStart(pos, i, width))
    decreases n
  {
    if n == 0 then Ok(Parsed([], pos))
    else
      RowStartShift(pos, n - 1, width);
      if pos + width > |buf| then
        RowStartMonotone(pos, 0, n - 1, width);
        Err(OutOfBounds(pos, width))
      else
        var rest := ReadRows(buf, pos + width, n - 1, width, row);
        if rest.Err? then rest
        else
          var items := [row(buf, pos)] + rest.value.item;
          assert forall i :: 0 < i < n ==> items[i] == rest.value.item[i - 1] by {
            forall i | 0 < i < n ensures items[i] == rest.value.item[i - 1] { }
          }
          forall i | 0 < i < n
            ensures RowStart(pos + width, i - 1, width) == RowStart(pos, i, width)
          {
            RowStartShift(pos, i - 1, width);
          }
          Ok(Parsed(items, rest.value.next))
  }

  /** `n` big-endian u16 values in a row (the index tables: interfaces,
      exception_index_table, classes, package_index, uses_index, ...). */
  function ReadUInt16s(buf: seq<uint8>, pos: nat, n: nat): (r: Result<Parsed<seq<uint16>>>)
    ensures r.Ok? <==> n == 0 || RowStart(pos, n, 2) <= |buf|
    ensures r.Ok? ==> r.value.next == RowStart(pos, n, 2) && |r.value.item| == n
    ensures r.Ok? ==> forall i :: 0 <= i < n ==>
      RowStart(pos, i, 2) + 2 <= |buf| && r.value.item[i] == U16At(buf, RowStart(pos, i, 2))
  {
    ReadRows(buf, pos, n, 2, U16At)
  }

  /** `n` records one after another, each decoded by `parse` where the
      previous one ended: the counted `for` loops whose element loader has a
      variable width.  The first failing record aborts the whole list. */
  function ReadList<T>(buf: seq<uint8>, pos: nat, n: nat, parse: (seq<uint8>, nat) -> Result<Parsed<T>>)
    : (r: Result<Parsed<seq<T>>>)
    ensures r.Ok? ==> |r.value.item| == n
    ensures n > 0 && parse(buf, pos).Err? ==> r == Err(parse(buf, pos).error)
    ensures StaysIn(buf, parse) && pos <= |buf| ==>
      Advanced(r, pos, |buf|)
    decreases n
  {
    if n == 0 then Ok(Parsed([], pos))
    else
      var x :- parse(buf, pos);
      var rest :- ReadList(buf, x.next, n - 1, parse);
      Ok(Parsed([x.item] + rest.item, rest.next))
  }

  /** `parse`, started anywhere in `buf`, ends between where it started and the end. */
  predicate StaysIn<T>(buf: seq<uint8>, parse: (seq<uint8>, nat) -> Result<Parsed<T>>)
  {
    forall p: nat :: p <= |buf| ==> Advanced(parse(buf, p), p, |buf|)
  }

  /** A list of `n > 0` records is its first record, then the rest. */
  lemma {:induction false} ReadListHead<T>(buf: seq<uint8>, pos: nat, n: nat, parse: (seq<uint8>, nat) -> Result<Parsed<T>>,
                                           x: Parsed<T>)
    requires n > 0 && parse(buf, pos) == Ok(x)
    ensures ReadList(buf, pos, n, parse) == Prepend([x.item], ReadList(buf, x.next, n - 1, parse))
  {
  }

  /** Decoding one record and then the rest of a list is decoding the list. */
  lemma {:induction false} ReadListStep<T>(buf: seq<uint8>, pos: nat, n: nat, parse: (seq<uint8>, nat) -> Result<Parsed<T>>,
                                           done: seq<T>, x: Parsed<T>)
    requires n > 0 && parse(buf, pos) == Ok(x)
    ensures Prepend(done, ReadList(buf, pos, n, parse)) == Prepend(done + [x.item], ReadList(buf, x.next, n - 1, parse))
  {
    ReadListHead(buf, pos, n, parse, x);
    PrependPrepend(done, [x.item], ReadList(buf, x.next, n - 1, parse));
  }

  /** One step of `ReadList`'s recursion, with `rest` reading the remaining records. */
  function ListUnfold<T>(buf: seq<uint8>, parse: (seq<uint8>, nat) -> Result<Parsed<T>>,
                         rest: (nat, nat) -> Result<Parsed<seq<T>>>, pos: nat, n: nat): Result<Parsed<seq<T>>>
  {
    if n == 0 then Ok(Parsed([], pos))
    else
      match parse(buf, pos)
      case Err(e) => Err(e)
      case Ok(x) => Prepend([x.item], rest(x.next, n - 1))
  }

  /** Any reading of `n` records that follows `ReadList`'s recursion is `ReadList`. */
  lemma {:induction false} FollowsReadList<T>(buf: seq<uint8>, pos: nat, n: nat, parse: (seq<uint8>, nat) -> Result<Parsed<T>>,
                                              other: (nat, nat) -> Result<Parsed<seq<T>>>)
    requires forall p: nat, k: nat {:trigger ListUnfold(buf, parse, other, p, k)} :: other(p, k) == ListUnfold(buf, parse, other, p, k)
    ensures other(pos, n) == ReadList(buf, pos, n, parse)
    decreases n
  {
    assert other(pos, n) == ListUnfold(buf, parse, other, pos, n);
    if n > 0 && parse(buf, pos).Ok? {
      var x := parse(buf, pos).value;
      FollowsReadList(buf, x.next, n - 1, parse, other);
      ReadListHead(buf, pos, n, parse, x);
    }
  }

  /** The records of `xs`, each written by `enc`, one after another. */
  function Concat<T>(enc: T -> seq<uint8>, xs: seq<T>): seq<uint8>
    decreases |xs|
  {
    if xs == [] then [] else enc(xs[0]) + Concat(enc, xs[1..])
  }

  /** Where `buf` holds the encoding of `x` at `p`, `parse` reads `x` back. */
  ghost predicate ReadsBackAt<T>(buf: seq<uint8>, parse: (seq<uint8>, nat) -> Result<Parsed<T>>, enc: T -> seq<uint8>, x: T, p: nat)
  {
    At(buf, p, enc(x)) ==> parse(buf, p) == Ok(Parsed(x, p + |enc(x)|))
  }

  /** Wherever `buf` holds the encoding of an element of `xs`, `parse` reads that element back. */
  ghost predicate ReadsBack<T>(buf: seq<uint8>, parse: (seq<uint8>, nat) -> Result<Parsed<T>>, enc: T -> seq<uint8>, xs: seq<T>)
  {
    forall p: nat, i | 0 <= i < |xs| :: ReadsBackAt(buf, parse, enc, xs[i], p)
  }

  /** Round trip of a list: records that each read back are read back as a list. */
  lemma {:induction false} ReadListAt<T>(buf: seq<uint8>, pos: nat, xs: seq<T>,
                                         parse: (seq<uint8>, nat) -> Result<Parsed<T>>, enc: T -> seq<uint8>)
    requires ReadsBack(buf, parse, enc, xs) && At(buf, pos, Concat(enc, xs))
    ensures ReadList(buf, pos, |xs|, parse) == Ok(Parsed(xs, pos + |Concat(enc, xs)|))
    decreases |xs|
  {
    if xs != [] {
      var mid := pos + |enc(xs[0])|;
      AtSplit(buf, pos, enc(xs[0]), Concat(enc, xs[1..]));
      assert ReadsBackAt(buf, parse, enc, xs[0], pos);
      assert ReadsBack(buf, parse, enc, xs[1..]) by {
        forall p: nat, i | 0 <= i < |xs[1..]|
          ensures ReadsBackAt(buf, parse, enc, xs[1..][i], p)
        {
          assert xs[1..][i] == xs[i + 1];
        }
      }
      ReadListAt(buf, mid, xs[1..], parse, enc);
      ReadListHead(buf, pos, |xs|, parse, Parsed(xs[0], mid));
      assert [xs[0]] + xs[1..] == xs;
    }
  }

  /** A counted `for` loop as the loaders write it: decode a record,
      return on failure, append it, go on where it ended. */
  method LoadList<T>(buf: seq<uint8>, pos: nat, n: nat, parse: (seq<uint8>, nat) -> Result<Parsed<T>>)
    returns (r: Result<Parsed<seq<T>>>)
    ensures r == ReadList(buf, pos, n, parse)
  {
    var items: seq<T> := [];
    var p := pos;
    var i: nat := 0;
    PrependNothing(ReadList(buf, pos, n, parse));
    while i < n
      invariant i <= n
      invariant Prepend(items, ReadList(buf, p, n - i, parse)) == ReadList(buf, pos, n, parse)
    {
      var x := parse(buf, p);
      if x.Err? {
        return Err(x.error);
      }
      ReadListStep(buf, p, n - i, parse, items, x.value);
      items := items + [x.value.item];
      p := x.value.next;
      i := i + 1;
    }
    assert items + [] == items;
    return Ok(Parsed(items, p));
  }

  /** A record decoder: from a position to the record and where it ends. */
  type Decoder<T> = (seq<uint8>, nat) -> Result<Parsed<T>>

  /** A u16 count, then that many records decoded by `parse`: the shape of
      every counted table whose records have a variable width. */
  function ParseCounted<T>(buf: seq<uint8>, pos: nat, parse: Decoder<T>): (r: Result<Parsed<seq<T>>>)
    ensures pos + 2 <= |buf| ==> r == ReadList(buf, pos + 2, U16At(buf, pos) as nat, parse)
    ensures r.Ok? ==> pos + 2 <= |buf| && |r.value.item| == U16At(buf, pos) as nat
    ensures pos + 2 > |buf| ==> r == Err(OutOfBounds(pos, 2))
  {
    var count :- ReadUInt16(buf, pos);
    ReadList(buf, count.next, count.item as nat, parse)
  }

  /** The start of record `i` is `pos + i * width`. */
  lemma {:induction false} RowStartIsProduct(pos: nat, i: nat, width: nat)
    ensures RowStart(pos, i, width) == pos + i * width
  {
    if i > 0 {
      RowStartIsProduct(pos, i - 1, width);
    }
  }

  /** `std::string(bytes.begin(), bytes.end())`: one character per byte, same code. */
  function ToStdString(bs: seq<uint8>): (s: string)
    ensures |s| == |bs| && forall i :: 0 <= i < |bs| ==> s[i] as int == bs[i] as int
  {
    seq(|bs|, i requires 0 <= i < |bs| => bs[i] as int as char)
  }

  // ---- The inverse of the reads: the big-endian encoding the format uses. ----

  function EncodeUInt16(x: uint16): (bs: seq<uint8>)
    ensures |bs| == 2
  {
    [(x as int / 0x100) as uint8, (x as int % 0x100) as uint8]
  }

  /** The two 16-bit halves, most significant first. */
  function EncodeUInt32(x: uint32): (bs: seq<uint8>)
    ensures |bs| == 4
  {
    EncodeUInt16((x as int / 0x1_0000) as uint16) + EncodeUInt16((x as int % 0x1_0000) as uint16)
  }

  /** Reading back what was encoded, wherever it sits in a buffer, gives the value. */
  lemma {:induction false} ReadUInt16Encode(pre: seq<uint8>, x: uint16, post: seq<uint8>)
    ensures ReadUInt16(pre + EncodeUInt16(x) + post, |pre|) == Ok(Parsed(x, |pre| + 2))
  {
    var buf := pre + EncodeUInt16(x) + post;
    assert buf[|pre|] == EncodeUInt16(x)[0] && buf[|pre| + 1] == EncodeUInt16(x)[1];
  }

  lemma {:induction false} ReadUInt32Encode(pre: seq<uint8>, x: uint32, post: seq<uint8>)
    ensures ReadUInt32(pre + EncodeUInt32(x) + post, |pre|) == Ok(Parsed(x, |pre| + 4))
  {
    AtConcat(pre, EncodeUInt32(x), post);
    ReadUInt32At(pre + EncodeUInt32(x) + post, |pre|, x);
  }

  lemma {:induction false} ReadUInt8Encode(pre: seq<uint8>, x: uint8, post: seq<uint8>)
    ensures ReadUInt8(pre + [x] + post, |pre|) == Ok(Parsed(x, |pre| + 1))
  {
    var buf := pre + [x] + post;
    assert buf[|pre|] == x;
  }

  /** `bs` occurs in `buf` starting at `pos`. */
  predicate At(buf: seq<uint8>, pos: nat, bs: seq<uint8>)
  {
    pos + |bs| <= |buf| && AtFrom(buf, pos, bs, 0)
  }

  /** Bytes `k` and after of `bs` occur at `pos + k` onwards, stated byte by byte. */
  predicate AtFrom(buf: seq<uint8>, pos: nat, bs: seq<uint8>, k: nat)
    requires pos + |bs| <= |buf|
    decreases |bs| - k
  {
    k >= |bs| || (buf[pos + k] == bs[k] && AtFrom(buf, pos, bs, k + 1))
  }

  lemma {:induction false} AtFromIsPointwise(buf: seq<uint8>, pos: nat, bs: seq<uint8>, k: nat)
    requires pos + |bs| <= |buf|
    ensures AtFrom(buf, pos, bs, k) <==> forall i :: k <= i < |bs| ==> buf[pos + i] == bs[i]
    decreases |bs| - k
  {
    if k < |bs| {
      AtFromIsPointwise(buf, pos, bs, k + 1);
    }
  }

  lemma {:induction false} AtIsPointwise(buf: seq<uint8>, pos: nat, bs: seq<uint8>)
    ensures At(buf, pos, bs) <==> pos + |bs| <= |buf| && forall i :: 0 <= i < |bs| ==> buf[pos + i] == bs[i]
  {
    if pos + |bs| <= |buf| {
      AtFromIsPointwise(buf, pos, bs, 0);
    }
  }

  lemma {:induction false} AtIsSlice(buf: seq<uint8>, pos: nat, bs: seq<uint8>)
    ensures At(buf, pos, bs) <==> pos + |bs| <= |buf| && buf[pos..pos + |bs|] == bs
  {
    AtIsPointwise(buf, pos, bs);
    if pos + |bs| <= |buf| && (forall i :: 0 <= i < |bs| ==> buf[pos + i] == bs[i]) {
      assert buf[pos..pos + |bs|] == bs;
    }
  }

  lemma {:induction false} AtConcat(pre: seq<uint8>, bs: seq<uint8>, post: seq<uint8>)
    ensures At(pre + bs + post, |pre|, bs)
  {
    assert (pre + bs + post)[|pre|..|pre| + |bs|] == bs;
    AtIsSlice(pre + bs + post, |pre|, bs);
  }

  lemma {:induction false} AtSplit(buf: seq<uint8>, pos: nat, a: seq<uint8>, b: seq<uint8>)
    requires At(buf, pos, a + b)
    ensures At(buf, pos, a) && At(buf, pos + |a|, b)
  {
    AtIsPointwise(buf, pos, a + b);
    AtIsPointwise(buf, pos, a);
    AtIsPointwise(buf, pos + |a|, b);
    forall i | 0 <= i < |a| ensures buf[pos + i] == a[i] {
      assert (a + b)[i] == a[i];
    }
    forall i | 0 <= i < |b| ensures buf[pos + |a| + i] == b[i] {
      assert (a + b)[|a| + i] == b[i];
    }
  }

  lemma {:induction false} ReadUInt8At(buf: seq<uint8>, pos: nat, x: uint8)
    requires At(buf, pos, [x])
    ensures ReadUInt8(buf, pos) == Ok(Parsed(x, pos + 1))
  {
    AtIsPointwise(buf, pos, [x]);
  }

  lemma {:induction false} ReadUInt16At(buf: seq<uint8>, pos: nat, x: uint16)
    requires At(buf, pos, EncodeUInt16(x))
    ensures ReadUInt16(buf, pos) == Ok(Parsed(x, pos + 2))
  {
    var e := EncodeUInt16(x);
    AtIsPointwise(buf, pos, e);
    assert buf[pos] == e[0] && buf[pos + 1] == e[1];
  }

  lemma {:induction false} ReadUInt32At(buf: seq<uint8>, pos: nat, x: uint32)
    requires At(buf, pos, EncodeUInt32(x))
    ensures ReadUInt32(buf, pos) == Ok(Parsed(x, pos + 4))
  {
    var hi, lo := (x as int / 0x1_0000) as uint16, (x as int % 0x1_0000) as uint16;
    AtSplit(buf, pos, EncodeUInt16(hi), EncodeUInt16(lo));
    ReadUInt16At(buf, pos, hi);
    ReadUInt16At(buf, pos + 2, lo);
  }

  /** Re-encoding a value read from the buffer gives back the bytes it was read from. */
  lemma {:induction false} ReadUInt16Exact(buf: seq<uint8>, pos: nat)
    requires pos + 2 <= |buf|
    ensures EncodeUInt16(U16At(buf, pos)) == buf[pos..pos + 2]
  {
    assert buf[pos..pos + 2] == [buf[pos], buf[pos + 1]];
  }

  lemma {:induction false} ReadUInt32Exact(buf: seq<uint8>, pos: nat)
    requires pos + 4 <= |buf|
    ensures EncodeUInt32(U32At(buf, pos)) == buf[pos..pos + 4]
  {
    ReadUInt16Exact(buf, pos);
    ReadUInt16Exact(buf, pos + 2);
    assert buf[pos..pos + 4] == buf[pos..pos + 2] + buf[pos + 2..pos + 4];
  }

  /** A count and a 16-bit field written from it (the count fits by the
      callers' well-formedness conditions). */
  function Count16(n: nat): uint16
  {
    (n % 0x1_0000) as uint16
  }

  /** A count below 0x10000 is stored unchanged. */
  lemma {:induction false} Count16Small(n: nat)
    requires n < 0x1_0000
    ensures Count16(n) as nat == n
  {
  }
}
