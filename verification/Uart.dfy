/** src/uart_nmea.c: the receive thread with its fixed line buffer, feeding the bridge. */
module UartReceiver {
  import opened Base
  import Framer
  import DropOldest
  import opened Bridge

  class UartThread {
    const bridge: NmeaBridge
    const line: array<Byte>
    var lineLen: nat
    var dropping: bool
    var bytesRx: uint32
    var linesRx: uint32
    var overlongLines: uint32
    ghost var trace: Framer.Trace  // what the automaton has done so far

    ghost predicate Valid()
      reads this, line, bridge, bridge.sinks
    {
      && bridge.Valid()
      && line.Length == bridge.c.frameMax
      && lineLen <= line.Length
      && trace.state == Framer.State(line[..lineLen], dropping)
      && (dropping ==> lineLen == 0)
    }

    constructor (bridge: NmeaBridge)
      requires bridge.Valid()
      ensures Valid() && this.bridge == bridge && trace == Framer.START
      ensures bytesRx == linesRx == overlongLines == 0
    {
      this.bridge := bridge;
      line := new Byte[bridge.c.frameMax];
      lineLen, dropping := 0, false;
      bytesRx, linesRx, overlongLines := 0, 0, 0;
      trace := Framer.START;
    }

    /** One byte: the buffer, the flag and the counters follow the automaton, and what it publishes is
        accepted by the bridge. */
    method Receive(ch: Byte)
      requires Valid()
      modifies this, line, bridge
      ensures Valid() && trace == Framer.Extend(line.Length, old(trace), ch)
      ensures bytesRx == Wrap32(old(bytesRx) + 1)
      ensures linesRx == Wrap32(old(linesRx) + |trace.published| - |old(trace).published|)
      ensures overlongLines == Wrap32(old(overlongLines) + trace.overlong - old(trace).overlong)
      ensures old(trace).published <= trace.published
      ensures bridge.ingest.offered ==
        old(bridge.ingest.offered) + trace.published[|old(trace).published|..]
      ensures bridge.ingest ==
        if trace.published == old(trace).published then old(bridge.ingest)
        else DropOldest.Put(old(bridge.ingest), bridge.c.ingestDepth, trace.published[|trace.published| - 1])
      ensures bridge.framesIn == Wrap32(old(bridge.framesIn) + |trace.published| - |old(trace).published|)
      ensures bridge.publishInvalid == old(bridge.publishInvalid)
      ensures bridge.publishOversize == old(bridge.publishOversize)
    {
      hide DropOldest.Inv, DropOldest.Put, Wrap32, Framer.Extend;
      Framer.ExtendCases(line.Length, trace, ch);
      WrapKeeps(linesRx);
      WrapKeeps(overlongLines);
      WrapKeeps(bridge.framesIn);
      WrapKeeps(bridge.publishInvalid);
      WrapKeeps(bridge.publishOversize);
      bytesRx := Wrap32(bytesRx + 1);
      trace := Framer.Extend(line.Length, trace, ch);
      if dropping {
        if ch == NEWLINE {
          dropping := false;
          lineLen := 0;
        }
        return;
      }
      if lineLen < line.Length {
        ghost var was := line[..lineLen];
        line[lineLen] := ch;
        lineLen := lineLen + 1;
        assert line[..lineLen] == was + [ch];
      } else {
        overlongLines := Wrap32(overlongLines + 1);
        dropping := true;
        lineLen := 0;
        return;
      }
      if ch == NEWLINE {
        var rc := bridge.Publish(Some(line[..lineLen]));
        linesRx := Wrap32(linesRx + 1);
        lineLen := 0;
      }
    }

    /** The polling loop over the bytes that are there: after any input the thread stands where the
        whole-stream run stands, and the bridge has been offered exactly what that published. */
    method PollAll(input: seq<Byte>)
      requires Valid()
      modifies this, line, bridge
      ensures Valid() && trace == Framer.Run(line.Length, old(trace), input)
      ensures bytesRx == Wrap32(old(bytesRx) + |input|)
      ensures old(trace).published <= trace.published
      ensures bridge.ingest.offered ==
        old(bridge.ingest.offered) + trace.published[|old(trace).published|..]
      ensures linesRx == Wrap32(old(linesRx) + |trace.published| - |old(trace).published|)
      ensures overlongLines == Wrap32(old(overlongLines) + trace.overlong - old(trace).overlong)
      ensures bridge.publishInvalid == old(bridge.publishInvalid)
      ensures bridge.publishOversize == old(bridge.publishOversize)
    {
      hide DropOldest.Inv, Framer.Extend, Wrap32;
      WrapKeeps(bytesRx);
      WrapKeeps(linesRx);
      WrapKeeps(overlongLines);
      var i := 0;
      assert input[..0] == [];
      while i < |input|
        invariant 0 <= i <= |input| && Valid()
        invariant trace == Framer.Run(line.Length, old(trace), input[..i])
        invariant bytesRx == Wrap32(old(bytesRx) + i)
        invariant old(trace).published <= trace.published
        invariant bridge.ingest.offered ==
          old(bridge.ingest.offered) + trace.published[|old(trace).published|..]
        invariant linesRx == Wrap32(old(linesRx) + |trace.published| - |old(trace).published|)
        invariant overlongLines == Wrap32(old(overlongLines) + trace.overlong - old(trace).overlong)
        invariant bridge.publishInvalid == old(bridge.publishInvalid)
        invariant bridge.publishOversize == old(bridge.publishOversize)
      {
        ghost var t, lines, overlong, bytes := trace, linesRx, overlongLines, bytesRx;
        Receive(input[i]);
        Framer.RunSnoc(line.Length, old(trace), input[..i], input[i]);
        assert input[..i + 1] == input[..i] + [input[i]];
        WrapAdds(old(bytesRx) + i, 1);
        WrapAdds(old(linesRx) + |t.published| - |old(trace).published|, |trace.published| - |t.published|);
        WrapAdds(old(overlongLines) + t.overlong - old(trace).overlong, trace.overlong - t.overlong);
        i := i + 1;
      }
      assert input[..|input|] == input;
    }
  }
}
