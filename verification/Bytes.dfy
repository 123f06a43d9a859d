/** Big-endian integers, length-prefixed byte strings and identifier lists, with their strict readers:
    a reader returns what a writer wrote and accepts nothing else. */
module Bytes {
  import opened Common

  datatype ReadError = UnexpectedEnd | CollectionTooLarge(actual: nat, maximum: nat)
      | OpaqueDataTooLarge(actual: nat, maximum: nat)

  /** A value read from the front of a byte string, and what is left. */
  datatype Parsed<+T> = Parsed(value: T, rest: seq<u8>)

  function Pow256(n: nat): (p: nat)
    ensures p > 0
  {
    if n == 0 then 1 else 256 * Pow256(n - 1)
  }

  /** A 32-byte identifier as its big-endian number, whose order is the byte order. */
  type Id = x: nat | x < ID_BOUND

  const ID_BOUND: nat := 0x1_0000_0000_0000_0000_0000_0000_0000_0000_0000_0000_0000_0000_0000_0000_0000_0000

  lemma SmallPowers()
    ensures Pow256(1) == 0x100 && Pow256(2) == 0x1_0000 && Pow256(4) == 0x1_0000_0000
    ensures Pow256(8) == 0x1_0000_0000_0000_0000
    ensures Pow256(16) == 0x1_0000_0000_0000_0000_0000_0000_0000_0000
  {
    assert Pow256(3) == 0x100_0000;
    assert Pow256(5) == 0x100_0000_0000;
    assert Pow256(7) == 0x100_0000_0000_0000;
    assert Pow256(10) == 0x1_0000_0000_0000_0000_0000;
    assert Pow256(13) == 0x100_0000_0000_0000_0000_0000_0000;
  }

  lemma {:induction false} PowAdds(a: nat, b: nat)
    ensures Pow256(a + b) == Pow256(a) * Pow256(b)
  {
    if a > 0 {
      PowAdds(a - 1, b);
      assert 256 * (Pow256(a - 1) * Pow256(b)) == (256 * Pow256(a - 1)) * Pow256(b);
    }
  }

  lemma IdPower()
    ensures Pow256(32) == ID_BOUND
  {
    SmallPowers();
    PowAdds(16, 16);
  }

  // ----- integers

  function BE(value: nat, width: nat): (bytes: seq<u8>)
    ensures |bytes| == width
  {
    if width == 0 then [] else BE(value / 256, width - 1) + [value % 256]
  }

  function FromBE(bytes: seq<u8>): nat {
    if bytes == [] then 0 else 256 * FromBE(bytes[..|bytes| - 1]) + bytes[|bytes| - 1]
  }

  lemma {:induction false} FromBEInverts(value: nat, width: nat)
    requires value < Pow256(width)
    ensures FromBE(BE(value, width)) == value
  {
    if width > 0 {
      FromBEInverts(value / 256, width - 1);
      assert BE(value, width)[..width - 1] == BE(value / 256, width - 1);
    }
  }

  /** The first byte in which the two differ is smaller on the left. */
  ghost predicate ByteOrder(a: seq<u8>, b: seq<u8>) {
    exists i :: 0 <= i < |a| && i < |b| && a[..i] == b[..i] && a[i] < b[i]
  }

  lemma LaterByte(x: seq<u8>, a: u8, b: u8)
    requires a < b
    ensures ByteOrder(x + [a], x + [b])
  {
    assert (x + [a])[..|x|] == x && (x + [b])[..|x|] == x;
  }

  lemma EarlierByte(x: seq<u8>, y: seq<u8>, s: seq<u8>, t: seq<u8>)
    requires ByteOrder(x, y)
    ensures ByteOrder(x + s, y + t)
  {
    var i :| 0 <= i < |x| && i < |y| && x[..i] == y[..i] && x[i] < y[i];
    assert (x + s)[..i] == x[..i] && (y + t)[..i] == y[..i];
  }

  /** Number order is byte order: the most significant byte comes first. */
  lemma {:induction false} BEOrdered(a: nat, b: nat, width: nat)
    requires a < b < Pow256(width)
    ensures ByteOrder(BE(a, width), BE(b, width))
  {
    var x, y := BE(a / 256, width - 1), BE(b / 256, width - 1);
    assert BE(a, width) == x + [a % 256] && BE(b, width) == y + [b % 256];
    if a / 256 == b / 256 {
      LaterByte(x, a % 256, b % 256);
    } else {
      BEOrdered(a / 256, b / 256, width - 1);
      hide BE, Pow256;
      EarlierByte(x, y, [a % 256], [b % 256]);
    }
  }

  lemma {:induction false} BEInverts(bytes: seq<u8>)
    ensures FromBE(bytes) < Pow256(|bytes|) && BE(FromBE(bytes), |bytes|) == bytes
  {
    if bytes != [] {
      BEInverts(bytes[..|bytes| - 1]);
    }
  }

  function ReadExact(rest: seq<u8>, length: nat): Result<Parsed<seq<u8>>, ReadError> {
    if |rest| < length then Err(UnexpectedEnd) else Ok(Parsed(rest[..length], rest[length..]))
  }

  function ReadBE(rest: seq<u8>, width: nat): Result<Parsed<nat>, ReadError> {
    if |rest| < width then Err(UnexpectedEnd) else Ok(Parsed(FromBE(rest[..width]), rest[width..]))
  }

  lemma ReadBEWritten(value: nat, width: nat, tail: seq<u8>)
    requires value < Pow256(width)
    ensures ReadBE(BE(value, width) + tail, width) == Ok(Parsed(value, tail))
  {
    FromBEInverts(value, width);
    assert (BE(value, width) + tail)[..width] == BE(value, width);
    assert (BE(value, width) + tail)[width..] == tail;
  }

  lemma ReadBEStrict(rest: seq<u8>, width: nat)
    requires ReadBE(rest, width).Ok?
    ensures var p := ReadBE(rest, width).value;
            p.value < Pow256(width) && rest == BE(p.value, width) + p.rest
  {
    BEInverts(rest[..width]);
    hide FromBE, BE, Pow256;
    assert rest == rest[..width] + rest[width..];
  }

  // ----- byte strings

  function PrefixedBytes(bytes: seq<u8>): seq<u8> {
    BE(|bytes|, 4) + bytes
  }

  function ReadBytes(rest: seq<u8>, maximum: nat): Result<Parsed<seq<u8>>, ReadError> {
    var length :- ReadBE(rest, 4);
    if length.value > maximum then Err(OpaqueDataTooLarge(length.value, maximum))
    else ReadExact(length.rest, length.value)
  }

  lemma ReadBytesWritten(bytes: seq<u8>, maximum: nat, tail: seq<u8>)
    requires |bytes| <= maximum < Pow256(4)
    ensures ReadBytes(PrefixedBytes(bytes) + tail, maximum) == Ok(Parsed(bytes, tail))
  {
    assert PrefixedBytes(bytes) + tail == BE(|bytes|, 4) + (bytes + tail);
    ReadBEWritten(|bytes|, 4, bytes + tail);
    assert (bytes + tail)[..|bytes|] == bytes && (bytes + tail)[|bytes|..] == tail;
  }

  lemma ReadBytesStrict(rest: seq<u8>, maximum: nat)
    requires ReadBytes(rest, maximum).Ok?
    ensures var p := ReadBytes(rest, maximum).value;
            |p.value| <= maximum && rest == PrefixedBytes(p.value) + p.rest
  {
    hide FromBE, BE;
    ReadBEStrict(rest, 4);
    var length, p := ReadBE(rest, 4).value, ReadBytes(rest, maximum).value;
    assert length.rest == p.value + p.rest && |p.value| == length.value;
    assert PrefixedBytes(p.value) + p.rest == BE(|p.value|, 4) + (p.value + p.rest);
  }

  // ----- identifier lists

  function Concat(ids: seq<Id>): (bytes: seq<u8>)
    ensures |bytes| == 32 * |ids|
  {
    if ids == [] then [] else BE(ids[0], 32) + Concat(ids[1..])
  }

  function PrefixedIds(ids: seq<Id>): (bytes: seq<u8>)
    ensures |bytes| == 4 + 32 * |ids|
  {
    BE(|ids|, 4) + Concat(ids)
  }

  function ReadId(rest: seq<u8>): Result<Parsed<Id>, ReadError> {
    if |rest| < 32 then Err(UnexpectedEnd)
    else
      assert FromBE(rest[..32]) < ID_BOUND by { BEInverts(rest[..32]); IdPower(); }
      Ok(Parsed(FromBE(rest[..32]), rest[32..]))
  }

  lemma ReadIdWritten(id: Id, tail: seq<u8>)
    ensures ReadId(BE(id, 32) + tail) == Ok(Parsed(id, tail))
  {
    IdPower();
    ReadBEWritten(id, 32, tail);
  }

  lemma ReadIdStrict(rest: seq<u8>)
    requires ReadId(rest).Ok?
    ensures rest == BE(ReadId(rest).value.value, 32) + ReadId(rest).value.rest
  {
    ReadBEStrict(rest, 32);
  }

  function ReadIdList(rest: seq<u8>, count: nat): Result<Parsed<seq<Id>>, ReadError> {
    if count == 0 then Ok(Parsed([], rest))
    else
      var first :- ReadId(rest);
      var others :- ReadIdList(first.rest, count - 1);
      Ok(Parsed([first.value] + others.value, others.rest))
  }

  lemma {:induction false} ReadIdListWritten(ids: seq<Id>, tail: seq<u8>)
    ensures ReadIdList(Concat(ids) + tail, |ids|) == Ok(Parsed(ids, tail))
  {
    if ids == [] {
      assert Concat(ids) + tail == tail;
    } else {
      assert Concat(ids) + tail == BE(ids[0], 32) + (Concat(ids[1..]) + tail);
      ReadIdWritten(ids[0], Concat(ids[1..]) + tail);
      ReadIdListWritten(ids[1..], tail);
      assert ids == [ids[0]] + ids[1..];
    }
  }

  lemma {:induction false} ReadIdListStrict(rest: seq<u8>, count: nat)
    requires ReadIdList(rest, count).Ok?
    ensures var p := ReadIdList(rest, count).value;
            |p.value| == count && rest == Concat(p.value) + p.rest
  {
    if count == 0 {
      assert rest == [] + rest;
    } else {
      ReadIdStrict(rest);
      var first := ReadId(rest).value;
      ReadIdListStrict(first.rest, count - 1);
      var others := ReadIdList(first.rest, count - 1).value;
      assert ([first.value] + others.value)[1..] == others.value;
      assert BE(first.value, 32) + (Concat(others.value) + others.rest)
          == (BE(first.value, 32) + Concat(others.value)) + others.rest;
    }
  }

  function ReadIds(rest: seq<u8>, maximum: nat): Result<Parsed<seq<Id>>, ReadError> {
    var count :- ReadBE(rest, 4);
    if count.value > maximum then Err(CollectionTooLarge(count.value, maximum))
    else ReadIdList(count.rest, count.value)
  }

  lemma ReadIdsWritten(ids: seq<Id>, maximum: nat, tail: seq<u8>)
    requires |ids| <= maximum < Pow256(4)
    ensures ReadIds(PrefixedIds(ids) + tail, maximum) == Ok(Parsed(ids, tail))
  {
    assert PrefixedIds(ids) + tail == BE(|ids|, 4) + (Concat(ids) + tail);
    ReadBEWritten(|ids|, 4, Concat(ids) + tail);
    ReadIdListWritten(ids, tail);
  }

  lemma ReadIdsStrict(rest: seq<u8>, maximum: nat)
    requires ReadIds(rest, maximum).Ok?
    ensures var p := ReadIds(rest, maximum).value;
            |p.value| <= maximum && rest == PrefixedIds(p.value) + p.rest
  {
    ReadBEStrict(rest, 4);
    var count := ReadBE(rest, 4).value;
    ReadIdListStrict(count.rest, count.value);
    var p := ReadIdList(count.rest, count.value).value;
    assert BE(count.value, 4) + (Concat(p.value) + p.rest) == PrefixedIds(p.value) + p.rest;
  }

  // ----- lists of records

  function Rows<T>(row: T -> seq<u8>, xs: seq<T>): seq<u8> {
    if xs == [] then [] else row(xs[0]) + Rows(row, xs[1..])
  }

  function ReadMany<T, E>(read: seq<u8> -> Result<Parsed<T>, E>, rest: seq<u8>, count: nat): Result<Parsed<seq<T>>, E>
    decreases count
  {
    if count == 0 then Ok(Parsed([], rest))
    else
      var first :- read(rest);
      var others :- ReadMany(read, first.rest, count - 1);
      Ok(Parsed([first.value] + others.value, others.rest))
  }

  lemma Associate(a: seq<u8>, b: seq<u8>, c: seq<u8>)
    ensures a + b + c == a + (b + c)
  {
  }

  lemma Reassociate(a: seq<u8>, b: seq<u8>, c: seq<u8>, d: seq<u8>, e: seq<u8>)
    ensures a + b + c + d + e == a + (b + (c + (d + e)))
  {
    assert a + b + c + d + e == a + b + c + (d + e);
    assert a + b + c + (d + e) == a + b + (c + (d + e));
  }

  /** `read` undoes `row` in front of any tail. */
  ghost predicate ReadsBack<T, E>(read: seq<u8> -> Result<Parsed<T>, E>, row: T -> seq<u8>, x: T, tail: seq<u8>) {
    read(row(x) + tail) == Ok(Parsed(x, tail))
  }

  /** What `read` accepts is an allowed record in written form. */
  ghost predicate ReadsOnly<T, E>(read: seq<u8> -> Result<Parsed<T>, E>, row: T -> seq<u8>, allowed: T -> bool,
      rest: seq<u8>) {
    read(rest).Ok? ==> allowed(read(rest).value.value) && rest == row(read(rest).value.value) + read(rest).value.rest
  }

  lemma {:induction false} ReadManyWritten<T(!new), E>(
      read: seq<u8> -> Result<Parsed<T>, E>, row: T -> seq<u8>, xs: seq<T>, tail: seq<u8>)
    requires forall i, t | 0 <= i < |xs| :: ReadsBack(read, row, xs[i], t)
    ensures ReadMany(read, Rows(row, xs) + tail, |xs|) == Ok(Parsed(xs, tail))
  {
    if xs == [] {
      assert Rows(row, xs) + tail == tail;
    } else {
      Associate(row(xs[0]), Rows(row, xs[1..]), tail);
      assert ReadsBack(read, row, xs[0], Rows(row, xs[1..]) + tail);
      ReadManyWritten(read, row, xs[1..], tail);
      assert xs == [xs[0]] + xs[1..];
    }
  }

  lemma {:induction false} ReadManyStrict<T(!new), E>(
      read: seq<u8> -> Result<Parsed<T>, E>, row: T -> seq<u8>, allowed: T -> bool, rest: seq<u8>, count: nat)
    requires forall r :: ReadsOnly(read, row, allowed, r)
    requires ReadMany(read, rest, count).Ok?
    ensures var p := ReadMany(read, rest, count).value;
            |p.value| == count && (forall i | 0 <= i < count :: allowed(p.value[i])) &&
            rest == Rows(row, p.value) + p.rest
    decreases count
  {
    if count == 0 {
      assert rest == [] + rest;
    } else {
      assert ReadsOnly(read, row, allowed, rest);
      var first := read(rest).value;
      ReadManyStrict(read, row, allowed, first.rest, count - 1);
      var others := ReadMany(read, first.rest, count - 1).value;
      assert ([first.value] + others.value)[1..] == others.value;
      Associate(row(first.value), Rows(row, others.value), others.rest);
    }
  }
}
