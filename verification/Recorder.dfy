/**
 * The response recorder: it passes a response on to the underlying writer,
 * remembers its status and keeps a bounded copy of its body.
 */
module Recorder {
  import opened Common
  import H = Headers

  /** Codes that net/http sends as interim responses (section 15.2 of RFC 9110); HTTP/1 treats 101 as final. */
  predicate Informational(http2: bool, code: nat) {
    100 <= code <= 199 && (http2 || code != 101)
  }

  /** What has been passed to the underlying writer: the final status, the header calls, the body bytes. */
  datatype Wire = Wire(final: Option<nat>, headerCalls: nat, sent: string)

  /** A call that a handler makes on the recorder. */
  datatype Call = Status(code: nat) | Data(bytes: string) | Abort(code: nat)

  datatype State = State(status: nat, wroteHeader: bool, body: string, wire: Wire)

  const FRESH := State(0, false, "", Wire(None, 0, ""))

  function WireHeader(http2: bool, w: Wire, code: nat): Wire {
    w.(headerCalls := w.headerCalls + 1,
       final := if w.final.Some? || Informational(http2, code) then w.final else Some(code))
  }

  function WireData(w: Wire, bytes: string): Wire {
    w.(final := if w.final.None? then Some(200) else w.final, sent := w.sent + bytes)
  }

  /** The underlying ResponseWriter of net/http: its header map, and what has been passed to it. */
  class ResponseWriter {
    const http2: bool
    var header: H.Header
    var wire: Wire

    constructor (http2: bool)
      ensures this.http2 == http2 && header == map[] && wire == Wire(None, 0, "")
    {
      this.http2 := http2;
      header := map[];
      wire := Wire(None, 0, "");
    }

    method WriteHeader(code: nat)
      modifies this`wire
      ensures wire == WireHeader(http2, old(wire), code)
    {
      wire := wire.(headerCalls := wire.headerCalls + 1);
      if wire.final.None? && !Informational(http2, code) {
        wire := wire.(final := Some(code));
      }
    }

    method Write(bytes: string)
      modifies this`wire
      ensures wire == WireData(old(wire), bytes)
    {
      if wire.final.None? {
        wire := wire.(final := Some(200));
      }
      wire := wire.(sent := wire.sent + bytes);
    }
  }

  function AfterHeader(http2: bool, s: State, code: nat): State {
    if s.wroteHeader then s
    else s.(status := code, wroteHeader := true, wire := WireHeader(http2, s.wire, code))
  }

  function Step(http2: bool, bodyCap: int, s: State, call: Call): State {
    match call
    case Status(code) => AfterHeader(http2, s, code)
    case Data(bytes) =>
      var s' := AfterHeader(http2, s, 200);
      s'.(body := if bodyCap > 0 then Take(s.body + bytes, bodyCap) else s.body, wire := WireData(s'.wire, bytes))
    case Abort(code) => if s.wroteHeader then s else s.(status := code, wroteHeader := true)
  }

  class Recorder {
    const writer: ResponseWriter
    const bodyCap: int
    var status: nat
    var wroteHeader: bool
    var body: string

    ghost predicate Valid()
      reads this
    {
      bodyCap > 0 ==> |body| <= bodyCap
    }

    function Value(): State
      reads this, writer`wire
    {
      State(status, wroteHeader, body, writer.wire)
    }

    constructor (writer: ResponseWriter, bodyCap: int)
      requires writer.wire == Wire(None, 0, "")
      ensures Valid() && Value() == FRESH && this.writer == writer && this.bodyCap == bodyCap
    {
      this.writer := writer;
      this.bodyCap := bodyCap;
      status, wroteHeader, body := 0, false, "";
    }

    method WriteHeader(code: nat)
      requires Valid()
      modifies this, writer`wire
      ensures Valid() && Value() == Step(writer.http2, bodyCap, old(Value()), Status(code))
    {
      if wroteHeader {
        return;
      }
      wroteHeader := true;
      status := code;
      writer.WriteHeader(code);
    }

    method Write(bytes: string)
      requires Valid()
      modifies this, writer`wire
      ensures Valid() && Value() == Step(writer.http2, bodyCap, old(Value()), Data(bytes))
    {
      if !wroteHeader {
        WriteHeader(200);
      }
      var remaining := bodyCap - |body|;
      if remaining > 0 {
        if |bytes| > remaining {
          body := body + bytes[..remaining];
        } else {
          body := body + bytes;
        }
      }
      writer.Write(bytes);
    }

    method Abandon(code: nat)
      requires Valid()
      modifies this
      ensures Valid() && Value() == Step(writer.http2, bodyCap, old(Value()), Abort(code))
    {
      if !wroteHeader {
        wroteHeader := true;
        status := code;
      }
    }

    /** Make a sequence of calls. */
    method Play(calls: seq<Call>)
      requires Valid() && Value() == FRESH
      modifies this, writer`wire
      ensures Valid() && Value() == Run(writer.http2, bodyCap, calls)
    {
      for i := 0 to |calls|
        invariant Valid() && Value() == Run(writer.http2, bodyCap, calls[..i])
      {
        assert calls[..i + 1][..i] == calls[..i];
        match calls[i]
        case Status(code) => WriteHeader(code);
        case Data(bytes) => Write(bytes);
        case Abort(code) => Abandon(code);
      }
      assert calls[..|calls|] == calls;
    }
  }

  /** The recorder after a run of calls. */
  function Run(http2: bool, bodyCap: int, calls: seq<Call>): State {
    if calls == [] then FRESH
    else Step(http2, bodyCap, Run(http2, bodyCap, calls[..|calls| - 1]), calls[|calls| - 1])
  }

  /** Status: what the recorder reports. */
  function Observed(s: State): nat {
    if s.wroteHeader then s.status else 200
  }

  /** The status that the client gets once the handler has returned. */
  function Delivered(s: State): nat {
    if s.wire.final.Some? then s.wire.final.value else 200
  }

  /** All bytes written, in order. */
  function Written(calls: seq<Call>): string {
    if calls == [] then ""
    else
      var n := |calls| - 1;
      Written(calls[..n]) + if calls[n].Data? then calls[n].bytes else ""
  }

  /** However a body is split into writes, the copy is its first bodyCap bytes, and the wire gets all of it. */
  lemma {:induction false} CaptureIsPrefix(http2: bool, bodyCap: int, calls: seq<Call>)
    ensures var s := Run(http2, bodyCap, calls);
            && s.body == (if bodyCap > 0 then Take(Written(calls), bodyCap) else "")
            && s.wire.sent == Written(calls)
  {
    if calls != [] {
      var n := |calls| - 1;
      CaptureIsPrefix(http2, bodyCap, calls[..n]);
      if calls[n].Data? && bodyCap > 0 {
        TakeTwice(Written(calls[..n]), calls[n].bytes, bodyCap);
      } else if !calls[n].Data? {
        assert Written(calls[..n]) + "" == Written(calls[..n]);
      }
    }
  }

  lemma TakeTwice(a: string, b: string, n: nat)
    ensures Take(Take(a, n) + b, n) == Take(a + b, n)
  {
  }

  /** The status that the first call settles. */
  function Settled(calls: seq<Call>): nat {
    if calls == [] then 200
    else match calls[0]
      case Status(code) => code
      case Data(_) => 200
      case Abort(code) => code
  }

  /** The first call decides what is observed, what is delivered, and that no second header reaches the wire. */
  lemma {:induction false} FirstCallDecides(http2: bool, bodyCap: int, calls: seq<Call>)
    ensures var s := Run(http2, bodyCap, calls); var code := Settled(calls);
            && s.wroteHeader == (calls != []) && (calls != [] ==> s.status == code)
            && s.wire.headerCalls == (if calls == [] || calls[0].Abort? then 0 else 1)
            && (s.wire.final.Some? ==>
                  Delivered(s) == if calls[0].Abort? || Informational(http2, code) then 200 else code)
            && (calls != [] && !calls[0].Abort? && !Informational(http2, code) ==> s.wire.final.Some?)
  {
    if calls != [] {
      var n := |calls| - 1;
      FirstCallDecides(http2, bodyCap, calls[..n]);
      assert n > 0 ==> calls[..n][0] == calls[0];
    }
  }

  /**
   * The recorder observes the status that is delivered, exactly when the first
   * call is no interim header and no other abort than of 200.
   */
  lemma ObservedIsDeliveredIff(http2: bool, bodyCap: int, calls: seq<Call>)
    ensures var s := Run(http2, bodyCap, calls);
            Observed(s) == Delivered(s)
            <==> calls == [] || Settled(calls) == 200 || (!calls[0].Abort? && !Informational(http2, Settled(calls)))
  {
    FirstCallDecides(http2, bodyCap, calls);
  }
}
