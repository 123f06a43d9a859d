/** A cursor over a byte string whose reads advance an offset, against the readers that consume a prefix. Each wire
    format wraps the cursor's read errors in its own error type. */
module Cursors {
  import opened Common
  import opened Bytes

  /** A read returned what the specification parses, and on success left the specified rest. */
  ghost predicate Reads<T, E>(r: Result<T, E>, parsed: Result<Parsed<T>, E>, rest: seq<u8>) {
    match parsed
    case Err(e) => r == Err(e)
    case Ok(p) => r == Ok(p.value) && rest == p.rest
  }

  function LiftBy<T, E>(lift: ReadError -> E, r: Result<T, ReadError>): Result<T, E> {
    match r case Ok(v) => Ok(v) case Err(e) => Err(lift(e))
  }

  ghost function Prepend<T, E>(front: seq<T>, r: Result<Parsed<seq<T>>, E>): Result<Parsed<seq<T>>, E> {
    match r case Err(e) => Err(e) case Ok(p) => Ok(Parsed(front + p.value, p.rest))
  }

  lemma PrependNothing<T, E>(r: Result<Parsed<seq<T>>, E>)
    ensures Prepend([], r) == r
  {
    match r {
      case Err(_) =>
      case Ok(p) => assert [] + p.value == p.value;
    }
  }

  /** The records read so far in front of an empty rest of the list are the whole list. */
  lemma PrependEnd<T, E>(front: seq<T>, read: seq<u8> -> Result<Parsed<T>, E>, rest: seq<u8>)
    ensures Prepend(front, ReadMany(read, rest, 0)) == Ok(Parsed(front, rest))
  {
    assert front + [] == front;
  }

  /** One more record read: the specified list is the records so far in front of the rest of the list. */
  lemma PrependStep<T, E>(front: seq<T>, read: seq<u8> -> Result<Parsed<T>, E>, rest: seq<u8>, count: nat)
    requires count > 0
    ensures read(rest).Err? ==> Prepend(front, ReadMany(read, rest, count)) == Err(read(rest).error)
    ensures read(rest).Ok? ==>
              Prepend(front, ReadMany(read, rest, count)) ==
                Prepend(front + [read(rest).value.value], ReadMany(read, read(rest).value.rest, count - 1))
  {
    if read(rest).Ok? {
      var first := read(rest).value;
      var others := ReadMany(read, first.rest, count - 1);
      if others.Ok? {
        assert front + ([first.value] + others.value.value) == front + [first.value] + others.value.value;
      }
    }
  }

  lemma {:induction false} ReadIdListIsMany(rest: seq<u8>, count: nat)
    ensures ReadIdList(rest, count) == ReadMany(ReadId, rest, count)
    decreases count
  {
    if count > 0 && ReadId(rest).Ok? {
      ReadIdListIsMany(ReadId(rest).value.rest, count - 1);
    }
  }

  class Cursor<E(!new)> {
    const bytes: seq<u8>
    const lift: ReadError -> E
    var offset: nat

    ghost predicate Valid()
      reads this
    {
      offset <= |bytes|
    }

    /** What has not been read yet. */
    ghost function Rest(): seq<u8>
      requires Valid()
      reads this
    {
      bytes[offset..]
    }

    constructor (bytes: seq<u8>, lift: ReadError -> E)
      ensures Valid() && this.bytes == bytes && this.lift == lift && Rest() == bytes
    {
      this.bytes, this.lift, offset := bytes, lift, 0;
    }

    method Remaining() returns (count: nat)
      requires Valid()
      ensures count == |Rest()|
    {
      count := |bytes| - offset;
    }

    method TakeExact(length: nat) returns (r: Result<seq<u8>, E>)
      requires Valid()
      modifies this
      ensures Valid() && Reads(r, LiftBy(lift, ReadExact(old(Rest()), length)), Rest())
    {
      if offset + length > |bytes| {
        return Err(lift(UnexpectedEnd));
      }
      assert bytes[offset..][..length] == bytes[offset..offset + length];
      assert bytes[offset..][length..] == bytes[offset + length..];
      r := Ok(bytes[offset..offset + length]);
      offset := offset + length;
    }

    method TakeBE(width: nat) returns (r: Result<nat, E>)
      requires Valid()
      modifies this
      ensures Valid() && Reads(r, LiftBy(lift, ReadBE(old(Rest()), width)), Rest())
    {
      var taken :- TakeExact(width);
      r := Ok(FromBE(taken));
    }

    method TakeId() returns (r: Result<Id, E>)
      requires Valid()
      modifies this
      ensures Valid() && Reads(r, LiftBy(lift, ReadId(old(Rest()))), Rest())
    {
      var taken :- TakeExact(32);
      BEInverts(taken);
      IdPower();
      r := Ok(FromBE(taken));
    }

    method TakeIdList(count: nat) returns (r: Result<seq<Id>, E>)
      requires Valid()
      modifies this
      ensures Valid() && Reads(r, LiftBy(lift, ReadIdList(old(Rest()), count)), Rest())
    {
      hide ReadId, ReadIdList, ReadMany;
      ghost var start := Rest();
      ReadIdListIsMany(start, count);
      var ids: seq<Id> := [];
      PrependNothing(ReadMany(ReadId, start, count));
      for i := 0 to count
        invariant Valid() && ReadMany(ReadId, start, count) == Prepend(ids, ReadMany(ReadId, Rest(), count - i))
      {
        PrependStep(ids, ReadId, Rest(), count - i);
        var id :- TakeId();
        ids := ids + [id];
      }
      PrependEnd(ids, ReadId, Rest());
      r := Ok(ids);
    }
  }
}
