/** A byte stream over the frames of a WebSocket. */
module WsConn {
  import opened Ordering

  type Byte = bv8

  datatype Error = EndOfFrame | Broken | Closed

  /** What a frame's reader may answer when asked for `room` bytes with `rest` to go: some of
      them, in order, and the end of the frame only with the last ones. A reader that stalls may
      also answer with nothing at all, and only one that breaks reports a broken connection. */
  ghost predicate IsFrameRead(stalls: bool, breaks: bool, rest: seq<Byte>, room: nat, n: nat, err: Option<Error>) {
    && n <= |rest| && n <= room
    && err in {None, Some(EndOfFrame), Some(Broken)}
    && (err == Some(EndOfFrame) ==> n == |rest|)
    && (err == Some(Broken) ==> breaks)
    && (!stalls && n == 0 && err.None? ==> room == 0)
  }

  /** Any answer a frame's reader may give. */
  method FrameRead(stalls: bool, breaks: bool, rest: seq<Byte>, room: nat) returns (n: nat, err: Option<Error>)
    ensures IsFrameRead(stalls, breaks, rest, room, n, err)
  {
    n, err := 0, None;
    var broken: bool, endsWithData: bool := *, *;
    while n < |rest| && n < room
      invariant n <= |rest| && n <= room
    {
      if * { break; }
      n := n + 1;
    }
    if breaks && broken {
      err := Some(Broken);
    } else if n == |rest| && (n == 0 || endsWithData) {
      err := Some(EndOfFrame);
    } else if n == 0 && room > 0 && !stalls {
      n := 1;
    }
  }

  function Flatten(chunks: seq<seq<Byte>>): seq<Byte> {
    if chunks == [] then [] else chunks[0] + Flatten(chunks[1..])
  }

  lemma {:induction false} FlattenSnoc(chunks: seq<seq<Byte>>, c: seq<Byte>)
    ensures Flatten(chunks + [c]) == Flatten(chunks) + c
  {
    if chunks == [] {
      assert [] + [c] == [c] && [c][1..] == [];
    } else {
      FlattenSnoc(chunks[1..], c);
      assert (chunks + [c])[1..] == chunks[1..] + [c];
    }
  }

  lemma FlattenNone()
    ensures Flatten([]) == []
  {
  }

  lemma FlattenFirst(chunks: seq<seq<Byte>>)
    requires chunks != []
    ensures [] + Flatten(chunks) == chunks[0] + Flatten(chunks[1..])
  {
  }

  lemma SplitAt(rest: seq<Byte>, n: nat, later: seq<Byte>)
    requires n <= |rest|
    ensures rest[..n] + (rest[n..] + later) == rest + later
    ensures n == |rest| ==> rest[..n] + ([] + later) == rest + later
    ensures n == 0 && n == |rest| ==> [] + later == rest + later
  {
  }

  lemma Chain(a: seq<Byte>, b: seq<Byte>, c: seq<Byte>, before: seq<Byte>, all: seq<Byte>)
    requires b + c == before && a + before == all
    ensures (a + b) + c == all
  {
    assert (a + b) + c == a + (b + c);
  }

  class Conn {
    /** The frames the socket is yet to hand over; after them it is closed. */
    var frames: seq<seq<Byte>>
    /** What is left of the frame being read; None asks for the next frame. */
    var reader: Option<seq<Byte>>
    const stalls: bool
    const breaks: bool

    constructor (payloads: seq<seq<Byte>>, stalls: bool, breaks: bool)
      ensures Ahead() == Flatten(payloads) && this.stalls == stalls && this.breaks == breaks
    {
      frames, reader, this.stalls, this.breaks := payloads, None, stalls, breaks;
    }

    /** The bytes not delivered yet. */
    ghost function Ahead(): seq<Byte>
      reads this
    {
      (if reader.Some? then reader.value else []) + Flatten(frames)
    }

    /** Delivers the next bytes, whatever the frame boundaries: what is delivered followed by what
        is left is what was ahead. The end of a frame is never reported. */
    method Read(b: array<Byte>) returns (n: nat, err: Option<Error>)
      modifies this, b
      ensures n <= b.Length && b[..n] + Ahead() == old(Ahead()) && b[n..] == old(b[n..])
      ensures err in {None, Some(Broken), Some(Closed)}
      ensures err == Some(Closed) ==> n == 0 && old(Ahead()) == []
      ensures err == Some(Broken) ==> breaks
      ensures !stalls && b.Length > 0 ==> n > 0 || err.Some?
    {
      hide Flatten;
      ghost var all := Ahead();
      while true
        invariant Ahead() == all && b[..] == old(b[..])
        decreases |frames|, if reader.Some? then 1 else 0
      {
        if reader.None? {
          if frames == [] {
            FlattenNone();
            return 0, Some(Closed);
          }
          FlattenFirst(frames);
          reader, frames := Some(frames[0]), frames[1..];
        }
        var rest := reader.value;
        n, err := FrameRead(stalls, breaks, rest, b.Length);
        SplitAt(rest, n, Flatten(frames));
        if n > 0 {
          forall k | 0 <= k < n { b[k] := rest[k]; }
          assert b[..n] == rest[..n];
          reader := Some(rest[n..]);
          if err == Some(EndOfFrame) {
            reader := None;
            err := None;
          }
          return;
        }
        if err == Some(EndOfFrame) {
          reader := None;
          continue;
        }
        return 0, err;
      }
    }

    /** Main result: whatever the sizes of the buffers, the bytes delivered by a series of reads are
        the next ones of the payloads in order, none lost or repeated; and when the readers do not
        stall or break, reads enough leave nothing behind. */
    method ReadSeries(sizes: seq<nat>) returns (chunks: seq<seq<Byte>>, err: Option<Error>)
      modifies this
      ensures Flatten(chunks) + Ahead() == old(Ahead())
      ensures err == Some(Closed) ==> Flatten(chunks) == old(Ahead())
      ensures err == Some(Broken) ==> breaks
      ensures !stalls && (forall k :: 0 <= k < |sizes| ==> sizes[k] > 0) && |sizes| > |old(Ahead())|
              && err != Some(Broken) ==>
                Flatten(chunks) == old(Ahead())
    {
      chunks, err := [], None;
      ghost var all := Ahead();
      assert Flatten(chunks) == [];
      hide Flatten, Ahead;
      for i := 0 to |sizes|
        invariant Flatten(chunks) + Ahead() == all && err == None
        invariant !stalls && (forall k :: 0 <= k < |sizes| ==> sizes[k] > 0) ==> |Flatten(chunks)| >= i
      {
        var b := new Byte[sizes[i]];
        ghost var before := Ahead();
        var n: nat;
        n, err := Read(b);
        FlattenSnoc(chunks, b[..n]);
        Chain(Flatten(chunks), b[..n], Ahead(), before, all);
        chunks := chunks + [b[..n]];
        if err.Some? {
          return;
        }
      }
    }
  }
}
