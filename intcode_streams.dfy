/** The two buffers a `Computer` talks through: `InStream`, a queue that
    Input instructions read from, and `OutStream`, a stack that Output
    instructions push onto and `get_output` pops. */
module IntcodeStreams {
  import opened Outcomes
  import opened IntcodeDecode

  /** The input queue; `buffer` holds the queued values, oldest first. */
  class InStream {
    var buffer: seq<int>

    constructor ()
      ensures buffer == []
    {
      buffer := [];
    }

    /** `add`: queue a value at the back. */
    method Add(inp: int)
      modifies this
      ensures buffer == old(buffer) + [inp]
    {
      buffer := buffer + [inp];
    }

    /** `get`: take the oldest value; an empty queue is an error and stays empty. */
    method Get() returns (r: Result<int, Fault>)
      modifies this
      ensures old(buffer) == [] ==> r == Err(EmptyInput) && buffer == []
      ensures old(buffer) != [] ==> r == Ok(old(buffer)[0]) && buffer == old(buffer)[1..]
    {
      if buffer == [] {
        r := Err(EmptyInput);
      } else {
        r := Ok(buffer[0]);
        buffer := buffer[1..];
      }
    }
  }

  /** The output buffer; `buffer` holds the produced values, oldest first. */
  class OutStream {
    var buffer: seq<int>

    constructor ()
      ensures buffer == []
    {
      buffer := [];
    }

    /** `put`: append a value. */
    method Put(val: int)
      modifies this
      ensures buffer == old(buffer) + [val]
    {
      buffer := buffer + [val];
    }

    /** `get`: remove and return the NEWEST value (`list.pop()`); `None`
        stands for the error raised on an empty buffer, which stays empty. */
    method Get() returns (r: Option<int>)
      modifies this
      ensures old(buffer) == [] ==> r == None && buffer == []
      ensures old(buffer) != [] ==>
        r == Some(old(buffer)[|old(buffer)| - 1]) && buffer == old(buffer)[..|old(buffer)| - 1]
    {
      if buffer == [] {
        r := None;
      } else {
        r := Some(buffer[|buffer| - 1]);
        buffer := buffer[..|buffer| - 1];
      }
    }
  }

  /** The input stream is first in, first out: a value added behind a
      non-empty queue does not come out before the value at its head. */
  method InputIsFifo(s: InStream, v: int) returns (r: Result<int, Fault>)
    requires s.buffer != []
    modifies s
    ensures r == Ok(old(s.buffer)[0])
    ensures s.buffer == old(s.buffer)[1..] + [v]
  {
    s.Add(v);
    r := s.Get();
  }

  /** The output stream is last in, first out: getting right after a put
      returns the value put and leaves the buffer as it was. */
  method OutputIsLifo(s: OutStream, v: int) returns (r: Option<int>)
    modifies s
    ensures r == Some(v)
    ensures s.buffer == old(s.buffer)
  {
    s.Put(v);
    r := s.Get();
  }
}
