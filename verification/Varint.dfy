/** Canonical unsigned varints: seven bits a byte, least significant first, with no padded forms. */
module Varint {
  import opened Common

  datatype WireError = TruncatedMessage | InvalidVarint | NonCanonicalVarint

  function Uvarint(value: nat): seq<u8> {
    if value < 128 then [value] else [value % 128 + 128] + Uvarint(value / 128)
  }

  /** The number a byte string spells, continuation bits dropped. */
  function Value(bytes: seq<u8>): nat {
    if bytes == [] then 0 else bytes[0] % 128 + 128 * Value(bytes[1..])
  }

  function Pow128(n: nat): nat {
    if n == 0 then 1 else 128 * Pow128(n - 1)
  }

  /** Every byte but the last continues, and the last is not a padding zero. */
  ghost predicate Canonical(bytes: seq<u8>) {
    |bytes| > 0 && Continues(bytes[..|bytes| - 1]) && bytes[|bytes| - 1] < 128
    && (|bytes| == 1 || bytes[|bytes| - 1] > 0)
  }

  ghost predicate Continues(bytes: seq<u8>) {
    forall i | 0 <= i < |bytes| :: bytes[i] >= 128
  }

  /** 300 is two groups: 44 with the continuation bit, then 2. */
  lemma UvarintOf300()
    ensures Uvarint(300) == [0xac, 0x02] && Value([0xac, 0x02]) == 300
  {
    assert [0xac, 0x02][1..] == [0x02] && [0x02][1..] == [];
  }

  lemma {:induction false} UvarintCanonical(value: nat)
    ensures Canonical(Uvarint(value)) && Value(Uvarint(value)) == value
  {
    if value >= 128 {
      UvarintCanonical(value / 128);
      var rest := Uvarint(value / 128);
      assert Uvarint(value)[1..] == rest;
      assert Uvarint(value)[..|rest|] == [value % 128 + 128] + rest[..|rest| - 1];
      if |rest| == 1 {
        assert rest[0] == value / 128;
      }
    }
  }

  /** A canonical string is the encoding of the number it spells. */
  lemma {:induction false} CanonicalIsUvarint(bytes: seq<u8>)
    requires Canonical(bytes)
    ensures Uvarint(Value(bytes)) == bytes
    ensures |bytes| > 1 ==> Value(bytes) >= 128
  {
    if |bytes| > 1 {
      var rest := bytes[1..];
      CanonicalTail(bytes);
      CanonicalIsUvarint(rest);
      if |rest| == 1 {
        assert rest[1..] == [] && Value(rest) == rest[0];
      }
      assert bytes == [bytes[0]] + rest;
    } else {
      assert bytes[1..] == [];
    }
  }

  lemma CanonicalTail(bytes: seq<u8>)
    requires Canonical(bytes) && |bytes| > 1
    ensures Canonical(bytes[1..]) && bytes[0] >= 128
  {
    var front, rest := bytes[..|bytes| - 1], bytes[1..];
    assert front[0] == bytes[0];
    assert rest[..|rest| - 1] == front[1..];
  }

  lemma {:induction false} ValueAppend(bytes: seq<u8>, last: u8)
    ensures Value(bytes + [last]) == Value(bytes) + Pow128(|bytes|) * (last % 128)
  {
    if bytes == [] {
      assert ([] + [last])[1..] == [];
    } else {
      assert (bytes + [last])[1..] == bytes[1..] + [last];
      ValueAppend(bytes[1..], last);
      var p, m := Pow128(|bytes| - 1), last % 128;
      assert 128 * (p * m) == (128 * p) * m;
    }
  }

  lemma {:induction false} ValueBound(bytes: seq<u8>)
    ensures Value(bytes) < Pow128(|bytes|)
  {
    if bytes != [] {
      ValueBound(bytes[1..]);
    }
  }

  lemma Pow128Of9()
    ensures Pow128(9) == 0x8000_0000_0000_0000
  {
    assert Pow128(3) == 0x20_0000;
    assert Pow128(6) == 0x400_0000_0000;
  }

  /** Appends the encoding of `value`, low seven bits first. */
  method WriteUvarint(value: nat, output: seq<u8>) returns (written: seq<u8>)
    ensures written == output + Uvarint(value)
  {
    var rest := value;
    written := output;
    while rest >= 128
      invariant written + Uvarint(rest) == output + Uvarint(value)
    {
      assert Uvarint(rest) == [rest % 128 + 128] + Uvarint(rest / 128);
      written := written + [rest % 128 + 128];
      rest := rest / 128;
    }
    written := written + [rest];
  }

  method UvarintWidth(value: nat) returns (width: nat)
    ensures width == |Uvarint(value)|
  {
    var rest := value;
    width := 1;
    while rest >= 128
      invariant width + |Uvarint(rest)| == |Uvarint(value)| + 1
    {
      rest := rest / 128;
      width := width + 1;
    }
  }

  /** The encodings of `u64` values. */
  ghost predicate EncodesU64(bytes: seq<u8>, value: nat) {
    value <= U64_MAX && bytes == Uvarint(value)
  }

  lemma {:induction false} ShortWidth(value: nat, n: nat)
    requires n > 0 && value < Pow128(n)
    ensures |Uvarint(value)| <= n
  {
    if value >= 128 {
      ShortWidth(value / 128, n - 1);
    }
  }

  lemma {:induction false} CanonicalLower(bytes: seq<u8>)
    requires Canonical(bytes) && |bytes| > 1
    ensures Value(bytes) >= Pow128(|bytes| - 1)
  {
    var rest := bytes[1..];
    CanonicalTail(bytes);
    if |rest| > 1 {
      CanonicalLower(rest);
    } else {
      assert rest[1..] == [];
    }
  }

  /** While only continuation bytes were read, every encoding in front is longer. */
  lemma StillOpen(rest: seq<u8>, index: nat, v: nat)
    requires index <= |rest| && Continues(rest[..index]) && Uvarint(v) <= rest
    ensures |Uvarint(v)| > index
  {
    UvarintCanonical(v);
  }

  lemma NothingFits(rest: seq<u8>, index: nat)
    requires index == |rest| && Continues(rest[..index])
    ensures forall v: nat :: !(Uvarint(v) <= rest)
  {
    forall v: nat ensures !(Uvarint(v) <= rest) {
      if Uvarint(v) <= rest {
        StillOpen(rest, index, v);
      }
    }
  }

  lemma TenthByteTooLarge(rest: seq<u8>)
    requires |rest| > 9 && Continues(rest[..9]) && rest[9] > 1
    ensures forall v: nat | v <= U64_MAX :: !(Uvarint(v) <= rest)
  {
    forall v: nat | Uvarint(v) <= rest ensures v > U64_MAX {
      TooLarge(rest, v);
    }
  }

  lemma TooLarge(rest: seq<u8>, v: nat)
    requires |rest| > 9 && Continues(rest[..9]) && rest[9] > 1 && Uvarint(v) <= rest
    ensures v > U64_MAX
  {
    hide Uvarint, Value;
    StillOpen(rest, 9, v);
    UvarintCanonical(v);
    if rest[9] < 128 {
      EndsThere(rest, 9, v);
      assert rest[..10] == rest[..9] + [rest[9]];
      TenBytesOverflow(rest[..9], rest[9]);
    } else {
      StillOpen(rest, 10, v);
      ElevenBytesOverflow(Uvarint(v));
    }
  }

  lemma TenBytesOverflow(front: seq<u8>, last: u8)
    requires |front| == 9 && 1 < last < 128
    ensures Value(front + [last]) > U64_MAX
  {
    ValueAppend(front, last);
    Pow128Of9();
    hide Pow128, Value;
    assert Pow128(9) * last >= Pow128(9) * 2;
  }

  lemma ElevenBytesOverflow(bytes: seq<u8>)
    requires Canonical(bytes) && |bytes| > 10
    ensures Value(bytes) > U64_MAX
  {
    CanonicalLower(bytes);
    Pow128Grows(10, |bytes| - 1);
    Pow128Of9();
    assert Pow128(10) == 128 * Pow128(9);
    hide Pow128, Value;
  }

  lemma {:induction false} Pow128Grows(a: nat, b: nat)
    requires a <= b
    ensures Pow128(a) <= Pow128(b)
  {
    if a < b {
      Pow128Grows(a, b - 1);
    }
  }

  /** Ten bytes whose last is at most one spell a `u64`. */
  lemma SpelledFits(rest: seq<u8>, index: nat)
    requires index < |rest| && index < 10 && (index == 9 ==> rest[9] <= 1)
    ensures Value(rest[..index + 1]) <= U64_MAX
  {
    var read := rest[..index + 1];
    assert read == rest[..index] + [rest[index]];
    ValueAppend(rest[..index], rest[index]);
    ValueBound(rest[..index]);
    ValueBound(read);
    Pow128Of9();
    if index < 9 {
      Pow128Grows(index + 1, 9);
    }
  }

  /** A padded form is longer than the encoding of the number it spells. */
  lemma PaddedIsLonger(rest: seq<u8>, index: nat)
    requires index < |rest| && Continues(rest[..index]) && rest[index] < 128 && !Canonical(rest[..index + 1])
    ensures |Uvarint(Value(rest[..index + 1]))| <= index
  {
    var read := rest[..index + 1];
    assert read == rest[..index] + [rest[index]] && read[..index] == rest[..index];
    assert rest[index] == 0 && index > 0;
    ValueAppend(rest[..index], rest[index]);
    ValueBound(rest[..index]);
    ShortWidth(Value(read), index);
  }

  /** An encoding in front of `rest` ends at the first byte without a continuation bit. */
  lemma EndsThere(rest: seq<u8>, index: nat, v: nat)
    requires index < |rest| && Continues(rest[..index]) && rest[index] < 128 && Uvarint(v) <= rest
    ensures Uvarint(v) == rest[..index + 1] && Canonical(rest[..index + 1])
  {
    hide Uvarint, Value;
    StillOpen(rest, index, v);
    UvarintCanonical(v);
    var s := Uvarint(v);
    assert s == rest[..|s|];
  }

  /** At the first byte without a continuation bit, the only candidate encoding is what was read. */
  lemma Ended(rest: seq<u8>, index: nat)
    requires index < |rest| && Continues(rest[..index]) && rest[index] < 128
    ensures var value := Value(rest[..index + 1]);
            |Uvarint(value)| == index + 1 ==>
              Uvarint(value) == rest[..index + 1] && forall v: nat | Uvarint(v) <= rest :: v == value
    ensures |Uvarint(Value(rest[..index + 1]))| != index + 1 ==> forall v: nat :: !(Uvarint(v) <= rest)
  {
    var read := rest[..index + 1];
    forall v: nat | Uvarint(v) <= rest ensures v == Value(read) && Canonical(read) {
      EndsThere(rest, index, v);
      UvarintCanonical(v);
    }
    if Canonical(read) {
      CanonicalIsUvarint(read);
    } else {
      PaddedIsLonger(rest, index);
    }
  }

  /** No encoding is a proper prefix of another: at most one number is written in front of `rest`. */
  lemma UvarintPrefixFree(rest: seq<u8>, a: nat, b: nat)
    requires Uvarint(a) <= rest && Uvarint(b) <= rest
    ensures a == b
  {
    hide Uvarint, Value;
    UvarintCanonical(a);
    UvarintCanonical(b);
    var s := Uvarint(a);
    assert s == rest[..|s|] && s[..|s| - 1] == rest[..|s| - 1];
    EndsThere(rest, |s| - 1, b);
  }

  /** Reads one varint at `offset`: exactly the encodings of `u64` values are accepted, and whatever follows a written
      value, reading returns that value and stops behind it. */
  method ReadUvarint(bytes: seq<u8>, offset: nat) returns (r: Result<nat, WireError>, next: nat)
    requires offset <= |bytes|
    ensures r.Ok? ==> offset <= next <= |bytes| && EncodesU64(bytes[offset..next], r.value)
    ensures forall v: nat | v <= U64_MAX && Uvarint(v) <= bytes[offset..] :: r == Ok(v) && next == offset + |Uvarint(v)|
  {
    var value := 0;
    next := offset;
    ghost var rest := bytes[offset..];
    for index := 0 to 10
      invariant next == offset + index <= |bytes| && index <= 9
      invariant Continues(rest[..index]) && value == Value(rest[..index])
    {
      if next >= |bytes| {
        NothingFits(rest, index);
        return Err(TruncatedMessage), next;
      }
      var byte := bytes[next];
      next := next + 1;
      assert rest[..index + 1] == rest[..index] + [byte];
      ValueAppend(rest[..index], byte);
      if index == 9 && byte > 1 {
        TenthByteTooLarge(rest);
        return Err(InvalidVarint), next;
      }
      value := value + Pow128(index) * (byte % 128);
      if byte < 128 {
        var width := UvarintWidth(value);
        Ended(rest, index);
        SpelledFits(rest, index);
        if width != index + 1 {
          return Err(NonCanonicalVarint), next;
        }
        assert bytes[offset..next] == rest[..index + 1];
        return Ok(value), next;
      }
    }
    assert false;
    r := Err(InvalidVarint);
  }
}
