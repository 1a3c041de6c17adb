/** The message object: one buffer that assignments and reads overwrite in place. */
module Messages {
  import opened Framing
  import RL = ReadLoop

  ghost predicate AllValid(msgs: seq<Msg>) {
    forall i :: 0 <= i < |msgs| ==> msgs[i].Valid()
  }

  /** The frames that a deque of messages puts on the wire. */
  ghost function QueueFrames(msgs: seq<Msg>): (fs: seq<Bytes>)
    requires AllValid(msgs)
    ensures |fs| == |msgs|
  {
    seq(|msgs|, i requires 0 <= i < |msgs| => msgs[i].Frame())
  }

  class Message {
    const data: array<Byte>
    var bodyLength: nat

    ghost predicate Valid()
      reads this, data
    {
      data.Length == BUFFER_LENGTH && bodyLength <= MAX_BODY_LENGTH
    }

    /** The value that copying this message copies: the whole buffer and the length. */
    ghost function Value(): Msg
      reads this, data
    {
      Msg(data[..], bodyLength)
    }

    /** The buffer is left uninitialised, and the length is 0. */
    constructor ()
      ensures Valid() && fresh(data) && bodyLength == 0
    {
      data := new Byte[BUFFER_LENGTH];
      bodyLength := 0;
    }

    constructor FromString(str: Body)
      ensures Valid() && fresh(data)
      ensures Value().Text() == str && Value().Frame() == FrameOf(str)
    {
      data := new Byte[BUFFER_LENGTH];
      bodyLength := 0;
      new;
      Assign(str);
    }

    /** Lengths beyond the buffer are clamped. */
    method SetBodyLength(newLength: nat)
      modifies this`bodyLength
      ensures bodyLength == if newLength > 2044 then 2044 else newLength
    {
      bodyLength := newLength;
      if bodyLength > MAX_BODY_LENGTH {
        bodyLength := MAX_BODY_LENGTH;
      }
    }

    /** Sets the length that the header announces; a refused header sets 0. */
    method DecodeHeader() returns (ok: bool)
      requires Valid()
      modifies this`bodyLength
      ensures Valid() && (Value(), ok) == RL.Decode(old(Value()))
      ensures ok <==> 0 <= Atoi(CString(data[..4])) <= 2044
      ensures bodyLength == if ok then Atoi(CString(data[..4])) else 0
    {
      DecodeHeaderAccepts(data[..HEADER_LENGTH]);
      var header := CString(data[..HEADER_LENGTH]);
      bodyLength := ToSize(Atoi(header));
      if bodyLength > MAX_BODY_LENGTH {
        bodyLength := 0;
        return false;
      }
      return true;
    }

    /** Overwrites the header bytes and nothing else. */
    method EncodeHeader()
      requires Valid()
      modifies data
      ensures data[..HEADER_LENGTH] == FormatHeader(bodyLength)
      ensures forall i :: HEADER_LENGTH <= i < data.Length ==> data[i] == old(data[i])
    {
      HeaderRoundTrip(bodyLength);
      var header := FormatHeader(bodyLength);
      forall i | 0 <= i < HEADER_LENGTH {
        data[i] := header[i];
      }
    }

    /** Assignment from a string: afterwards the message is exactly that string's frame,
        whatever the buffer held; the bytes behind it are left as they were. */
    method Assign(str: Body)
      requires Valid()
      modifies this`bodyLength, data
      ensures Valid() && bodyLength == |str|
      ensures Value().Text() == str && Value().Frame() == FrameOf(str)
      ensures forall i :: HEADER_LENGTH + |str| <= i < data.Length ==> data[i] == old(data[i])
    {
      hide FormatHeader;
      SetBodyLength(|str|);
      EncodeHeader();
      HeaderRoundTrip(|str|);
      label headed:
      forall i | 0 <= i < |str| {
        data[HEADER_LENGTH + i] := str[i];
      }
      assert data[..HEADER_LENGTH] == old@headed(data[..HEADER_LENGTH]);
      assert data[HEADER_LENGTH..HEADER_LENGTH + |str|] == str;
      assert data[..HEADER_LENGTH + |str|] == data[..HEADER_LENGTH] + data[HEADER_LENGTH..HEADER_LENGTH + |str|];
    }

    /** Conversion to a string: stale bytes behind the body do not show. */
    method ToString() returns (str: Body)
      requires Valid()
      ensures str == Value().Text()
    {
      str := data[HEADER_LENGTH..HEADER_LENGTH + bodyLength];
    }

    /** A read stores a chunk at an offset of the buffer. */
    method Store(at: nat, chunk: Bytes)
      requires Valid() && at + |chunk| <= BUFFER_LENGTH
      modifies data
      ensures Value() == old(Value()).(data := RL.Splice(old(data[..]), at, chunk))
    {
      forall i | 0 <= i < |chunk| {
        data[at + i] := chunk[i];
      }
      assert data[..] == RL.Splice(old(data[..]), at, chunk);
    }
  }
}
