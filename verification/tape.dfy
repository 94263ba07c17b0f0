/** An append-only log of hashed frames, and what is read back from any bytes. */
module Tape {
  import opened Wrappers

  type byte = b: int | 0 <= b < 256

  type Bytes = seq<byte>

  type Digest = d: Bytes | |d| == 32 witness seq(32, _ => 0)

  /** One past the largest length a frame's header can hold. */
  const MAX_LEN: nat := 0x1_0000_0000

  /** The payloads read and where they end, or where a bad record stands. */
  type Reading = Result<(seq<Bytes>, nat), nat>

  /** The low four bytes, little end first. */
  function Le32(n: nat): (b: Bytes)
    ensures |b| == 4
  {
    [n % 256, n / 256 % 256, n / 65536 % 256, n / 16777216 % 256]
  }

  function FromLe32(b: Bytes): (n: nat)
    requires |b| == 4
    ensures n < MAX_LEN
  {
    b[0] as int + 256 * (b[1] as int) + 65536 * (b[2] as int) + 16777216 * (b[3] as int)
  }

  lemma LowBytes(n: nat)
    ensures FromLe32(Le32(n)) == n % MAX_LEN
  {
    var a := n / 256;
    var b := a / 256;
    var c := b / 256;
    assert n / 65536 == b && n / 16777216 == c;
    assert n == 256 * a + n % 256 && a == 256 * b + a % 256 && b == 256 * c + b % 256 && c == 256 * (c / 256) + c % 256;
  }

  /** Little end first: the first byte counts ones, and each one after it 256 times the one before. */
  lemma LittleEnd(n: nat)
    requires n < MAX_LEN
    ensures var b := Le32(n);
      n == b[0] as int + 256 * (b[1] as int) + 65536 * (b[2] as int) + 16777216 * (b[3] as int)
  {
    LowBytes(n);
  }

  lemma HeaderBytes(b: Bytes)
    requires |b| == 4
    ensures Le32(FromLe32(b)) == b
  {
    var n := FromLe32(b);
    var r: int := b[1] as int + 256 * (b[2] as int) + 65536 * (b[3] as int);
    var s: int := b[2] as int + 256 * (b[3] as int);
    assert n == b[0] as int + 256 * r && r == b[1] as int + 256 * s;
    assert n / 256 == r && n % 256 == b[0];
    assert r / 256 == s && r % 256 == b[1];
    assert n / 65536 == s && n / 16777216 == b[3];
  }

  /** What an append writes for one payload. The length is cast to 32 bits. */
  function Frame(hash: Bytes -> Digest, payload: Bytes): Bytes {
    Le32(|payload|) + hash(payload) + payload
  }

  /** The record on disk, byte by byte: how long the payload is, little end first, its hash, and the payload. */
  lemma FrameBytes(hash: Bytes -> Digest, payload: Bytes)
    requires |payload| < MAX_LEN
    ensures var b := Frame(hash, payload);
      && |b| == 36 + |payload|
      && |payload| == b[0] as int + 256 * (b[1] as int) + 65536 * (b[2] as int) + 16777216 * (b[3] as int)
      && b[4..36] == hash(payload) && b[36..] == payload
  {
    hide Le32;
    LittleEnd(|payload|);
    var b := Frame(hash, payload);
    assert b[..4] == Le32(|payload|);
    assert b[0] == b[..4][0] && b[1] == b[..4][1] && b[2] == b[..4][2] && b[3] == b[..4][3];
  }

  /** A log nothing ever tore. */
  function Log(hash: Bytes -> Digest, payloads: seq<Bytes>): Bytes {
    if payloads == [] then [] else Log(hash, payloads[..|payloads| - 1]) + Frame(hash, payloads[|payloads| - 1])
  }

  function Prepend(payloads: seq<Bytes>, r: Reading): Reading {
    if r.Ok? then Ok((payloads + r.value.0, r.value.1)) else r
  }

  /** Whole records from offset `at` on, where `rest` is what the file holds from there. */
  function Scan(hash: Bytes -> Digest, rest: Bytes, at: nat): Reading
    decreases |rest|
  {
    if |rest| < 36 then Ok(([], at))
    else
      var len := FromLe32(rest[..4]);
      if |rest| - 36 < len then Ok(([], at))
      else
        var payload := rest[36..36 + len];
        if hash(payload) != rest[4..36] then
          if 36 + len == |rest| then Ok(([], at)) else Err(at)
        else
          Prepend([payload], Scan(hash, rest[36 + len..], at + 36 + len))
  }

  function Read(hash: Bytes -> Digest, bytes: Bytes): Reading {
    Scan(hash, bytes, 0)
  }

  lemma PrependNothing(payloads: seq<Bytes>, at: nat)
    ensures Prepend(payloads, Ok(([], at))) == Ok((payloads, at))
  {
    assert payloads + [] == payloads;
  }

  lemma PrependTwice(front: seq<Bytes>, back: seq<Bytes>, r: Reading)
    ensures Prepend(front, Prepend(back, r)) == Prepend(front + back, r)
  {
    if r.Ok? {
      assert front + (back + r.value.0) == front + back + r.value.0;
    }
  }

  /** One record, read in place. */
  lemma ScanAt(hash: Bytes -> Digest, bytes: Bytes, at: nat)
    requires at <= |bytes|
    ensures Scan(hash, bytes[at..], at) ==
      if |bytes| - at < 36 then Ok(([], at))
      else
        var len, start := FromLe32(bytes[at..at + 4]), at + 36;
        if |bytes| - start < len then Ok(([], at))
        else if hash(bytes[start..start + len]) != bytes[at + 4..at + 36] then
          if start + len == |bytes| then Ok(([], at)) else Err(at)
        else Prepend([bytes[start..start + len]], Scan(hash, bytes[start + len..], start + len))
  {
    hide Prepend;
    if |bytes| - at >= 36 {
      var rest := bytes[at..];
      assert rest[..4] == bytes[at..at + 4] && rest[4..36] == bytes[at + 4..at + 36];
      var len, start := FromLe32(bytes[at..at + 4]), at + 36;
      if |bytes| - start >= len {
        assert rest[36..36 + len] == bytes[start..start + len] && rest[36 + len..] == bytes[start + len..];
      }
    }
  }

  /** A missing file reads as an empty one. */
  function ReadOf(hash: Bytes -> Digest, file: Option<Bytes>): Reading {
    if file.None? then Ok(([], 0)) else Read(hash, file.value)
  }

  method ReadFrames(hash: Bytes -> Digest, file: Option<Bytes>) returns (r: Reading)
    ensures r == ReadOf(hash, file)
  {
    hide Scan, Prepend, FromLe32;
    if file.None? {
      return Ok(([], 0));
    }
    var bytes := file.value;
    var out: seq<Bytes> := [];
    var at := 0;
    assert bytes[0..] == bytes;
    PrependNone(Read(hash, bytes));
    ErrPasses(out, at);
    while at < |bytes|
      invariant at <= |bytes|
      invariant Read(hash, bytes) == Prepend(out, Scan(hash, bytes[at..], at))
    {
      ScanAt(hash, bytes, at);
      PrependNothing(out, at);
      ErrPasses(out, at);
      if |bytes| - at < 36 {
        return Ok((out, at));
      }
      var len := FromLe32(bytes[at..at + 4]);
      var start := at + 36;
      if |bytes| - start < len {
        return Ok((out, at));
      }
      var payload := bytes[start..start + len];
      if hash(payload) != bytes[at + 4..at + 36] {
        if start + len == |bytes| {
          return Ok((out, at));
        }
        return Err(at);
      }
      PrependTwice(out, [payload], Scan(hash, bytes[start + len..], start + len));
      out := out + [payload];
      at := start + len;
    }
    ScanAt(hash, bytes, at);
    PrependNothing(out, at);
    return Ok((out, at));
  }

  lemma PrependNone(r: Reading)
    ensures Prepend([], r) == r
  {
    if r.Ok? {
      assert [] + r.value.0 == r.value.0;
    }
  }

  lemma ErrPasses(payloads: seq<Bytes>, at: nat)
    ensures Prepend(payloads, Err(at)) == Err(at)
  {
  }

  // ------------------------------------------------------------- one frame ahead --

  lemma FrameParts(hash: Bytes -> Digest, payload: Bytes, rest: Bytes)
    requires |payload| < MAX_LEN
    ensures var all := Frame(hash, payload) + rest;
      && |all| == 36 + |payload| + |rest|
      && FromLe32(all[..4]) == |payload| && all[4..36] == hash(payload)
      && all[36..36 + |payload|] == payload && all[36 + |payload|..] == rest
  {
    hide Le32, FromLe32;
    LowBytes(|payload|);
    Parts(Le32(|payload|), hash(payload), payload, rest);
  }

  lemma Parts(header: Bytes, digest: Bytes, payload: Bytes, rest: Bytes)
    requires |header| == 4 && |digest| == 32
    ensures var all := header + digest + payload + rest;
      && |all| == 36 + |payload| + |rest| && all[..4] == header && all[4..36] == digest
      && all[36..36 + |payload|] == payload && all[36 + |payload|..] == rest
  {
  }

  lemma FrameSize(hash: Bytes -> Digest, payload: Bytes)
    ensures |Frame(hash, payload)| == 36 + |payload|
  {
  }

  lemma ScanFrame(hash: Bytes -> Digest, payload: Bytes, rest: Bytes, at: nat)
    requires |payload| < MAX_LEN
    ensures Scan(hash, Frame(hash, payload) + rest, at) == Prepend([payload], Scan(hash, rest, at + 36 + |payload|))
  {
    hide Frame, Prepend;
    FrameParts(hash, payload, rest);
  }

  ghost predicate Short(payloads: seq<Bytes>) {
    forall i :: 0 <= i < |payloads| ==> |payloads[i]| < MAX_LEN
  }

  /** Appended frames are read back one by one, whatever follows them. */
  lemma {:induction false} ScanLog(hash: Bytes -> Digest, payloads: seq<Bytes>, rest: Bytes)
    requires Short(payloads)
    ensures Read(hash, Log(hash, payloads) + rest) == Prepend(payloads, Scan(hash, rest, |Log(hash, payloads)|))
    decreases |payloads|
  {
    hide Scan, Frame, Prepend;
    if payloads != [] {
      var front, last := payloads[..|payloads| - 1], payloads[|payloads| - 1];
      assert payloads == front + [last];
      var after := Frame(hash, last) + rest;
      assert Log(hash, payloads) + rest == Log(hash, front) + after;
      ScanLog(hash, front, after);
      ScanFrame(hash, last, rest, |Log(hash, front)|);
      FrameSize(hash, last);
      PrependTwice(front, [last], Scan(hash, rest, |Log(hash, payloads)|));
    } else {
      assert Log(hash, payloads) + rest == rest;
      PrependNone(Scan(hash, rest, 0));
    }
  }

  lemma ScanEmpty(hash: Bytes -> Digest, at: nat)
    ensures Scan(hash, [], at) == Ok(([], at))
  {
  }

  lemma TornFrame(hash: Bytes -> Digest, payload: Bytes, torn: nat, at: nat)
    requires |payload| < MAX_LEN && torn < |Frame(hash, payload)|
    ensures Scan(hash, Frame(hash, payload)[..torn], at) == Ok(([], at))
  {
    hide Le32, FromLe32, Prepend;
    var tail := Frame(hash, payload)[..torn];
    if torn >= 36 {
      LowBytes(|payload|);
      assert tail[..4] == Le32(|payload|);
    }
  }

  /** A crash inside an append: whatever part of the frame reached the file, exactly the appended payloads are read,
      and the offset is where the torn tail begins. */
  lemma TornTailDropped(hash: Bytes -> Digest, payloads: seq<Bytes>, payload: Bytes, torn: nat)
    requires Short(payloads) && |payload| < MAX_LEN && torn < |Frame(hash, payload)|
    ensures Read(hash, Log(hash, payloads) + Frame(hash, payload)[..torn]) == Ok((payloads, |Log(hash, payloads)|))
  {
    hide Frame, Scan, Log, Prepend, Short;
    PrependNothing(payloads, |Log(hash, payloads)|);
    ScanLog(hash, payloads, Frame(hash, payload)[..torn]);
    TornFrame(hash, payload, torn, |Log(hash, payloads)|);
  }

  /** Whatever bytes a file holds, what is read from them is the log of a prefix of them. */
  lemma {:induction false} ReadIsLogged(hash: Bytes -> Digest, rest: Bytes, at: nat)
    requires Scan(hash, rest, at).Ok?
    ensures var (payloads, end) := Scan(hash, rest, at).value;
      && Short(payloads) && at <= end <= at + |rest|
      && rest[..end - at] == Log(hash, payloads)
    decreases |rest|
  {
    hide Frame, Log, FromLe32;
    if |rest| >= 36 && |rest| - 36 >= FromLe32(rest[..4]) {
      var len := FromLe32(rest[..4]);
      var payload := rest[36..36 + len];
      if hash(payload) == rest[4..36] {
        ReadIsLogged(hash, rest[36 + len..], at + 36 + len);
        var (tail, end) := Scan(hash, rest[36 + len..], at + 36 + len).value;
        RecordIsFrame(hash, rest);
        LogFirst(hash, payload, tail);
        SlicesJoin(rest, 36 + len, end - at);
      }
    }
    NothingLogged(hash);
  }

  lemma SlicesJoin(rest: Bytes, a: nat, b: nat)
    requires a <= b <= |rest|
    ensures rest[..b] == rest[..a] + rest[a..][..b - a]
  {
  }

  lemma NothingLogged(hash: Bytes -> Digest)
    ensures Log(hash, []) == []
  {
  }

  lemma RecordIsFrame(hash: Bytes -> Digest, rest: Bytes)
    requires |rest| >= 36 && |rest| - 36 >= FromLe32(rest[..4])
    requires hash(rest[36..36 + FromLe32(rest[..4])]) == rest[4..36]
    ensures rest[..36 + FromLe32(rest[..4])] == Frame(hash, rest[36..36 + FromLe32(rest[..4])])
  {
    hide FromLe32, Le32;
    HeaderBytes(rest[..4]);
    var len := FromLe32(rest[..4]);
    assert rest[..36 + len] == rest[..4] + rest[4..36] + rest[36..36 + len];
  }

  lemma {:induction false} LogFirst(hash: Bytes -> Digest, payload: Bytes, tail: seq<Bytes>)
    ensures Log(hash, [payload] + tail) == Frame(hash, payload) + Log(hash, tail)
    decreases |tail|
  {
    hide Frame;
    if tail == [] {
      assert [payload] + tail == [payload];
      assert Log(hash, [payload]) == Log(hash, []) + Frame(hash, payload);
    } else {
      var front := tail[..|tail| - 1];
      assert ([payload] + tail)[..|tail|] == [payload] + front;
      LogFirst(hash, payload, front);
    }
  }

  /** Recovery, from any bytes that open: cut where the whole records end, append, and the old payloads read back with the new. */
  lemma RecoverThenAppend(hash: Bytes -> Digest, bytes: Bytes, payload: Bytes)
    requires Read(hash, bytes).Ok? && |payload| < MAX_LEN
    ensures var (payloads, end) := Read(hash, bytes).value;
      && end <= |bytes| && bytes[..end] == Log(hash, payloads)
      && Read(hash, bytes[..end]) == Ok((payloads, end))
      && Read(hash, bytes[..end] + Frame(hash, payload))
         == Ok((payloads + [payload], end + |Frame(hash, payload)|))
  {
    hide Frame, Scan, Prepend;
    ReadIsLogged(hash, bytes, 0);
    var (payloads, end) := Read(hash, bytes).value;
    ScanLog(hash, payloads, []);
    ScanEmpty(hash, end);
    PrependNothing(payloads, end);
    assert Log(hash, payloads) + [] == Log(hash, payloads);
    var more := payloads + [payload];
    assert more[..|payloads|] == payloads;
    assert Log(hash, more) == Log(hash, payloads) + Frame(hash, payload);
    ScanLog(hash, more, []);
    ScanEmpty(hash, |Log(hash, more)|);
    PrependNothing(more, |Log(hash, more)|);
    assert Log(hash, more) + [] == Log(hash, more);
  }

  // ------------------------------------------------------------------ corruption --

  /** A whole record whose hash does not match: dropped where it is the last, refused by its offset anywhere before. */
  lemma MismatchRefused(hash: Bytes -> Digest, payloads: seq<Bytes>, header: Bytes, digest: Digest, payload: Bytes, rest: Bytes)
    requires Short(payloads)
    requires |header| == 4 && FromLe32(header) == |payload| && digest != hash(payload)
    ensures Read(hash, Log(hash, payloads) + (header + digest + payload + rest))
         == if rest == [] then Ok((payloads, |Log(hash, payloads)|)) else Err(|Log(hash, payloads)|)
  {
    hide Log, Prepend, FromLe32;
    var tail := header + digest + payload + rest;
    ScanLog(hash, payloads, tail);
    assert tail[..4] == header && tail[4..36] == digest && tail[36..36 + |payload|] == payload;
    PrependNothing(payloads, |Log(hash, payloads)|);
    ErrPasses(payloads, |Log(hash, payloads)|);
  }

  /** The 32-bit length cast: an appended payload reads back exactly when its length fits the header. */
  lemma RoundTripExactly(hash: Bytes -> Digest, payloads: seq<Bytes>, payload: Bytes)
    requires Short(payloads)
    ensures var bytes := Log(hash, payloads) + Frame(hash, payload);
      Read(hash, bytes) == Ok((payloads + [payload], |bytes|)) <==> |payload| < MAX_LEN
  {
    hide Scan, Log, Frame;
    var frame := Frame(hash, payload);
    var at := |Log(hash, payloads)|;
    FrameSize(hash, payload);
    ScanLog(hash, payloads, frame);
    if |payload| < MAX_LEN {
      ScanFrame(hash, payload, [], at);
      ScanEmpty(hash, at + 36 + |payload|);
      PrependNothing([payload], at + 36 + |payload|);
      assert frame + [] == frame;
    } else {
      TooLong(hash, payload, at);
      var r := Scan(hash, frame, at);
      assert r.Ok? ==> (payloads + r.value.0)[|payloads|..] == r.value.0;
      assert (payloads + [payload])[|payloads|..] == [payload];
    }
  }

  lemma TooLong(hash: Bytes -> Digest, payload: Bytes, at: nat)
    requires |payload| >= MAX_LEN
    ensures var r := Scan(hash, Frame(hash, payload), at);
      r.Ok? ==> r.value.0 != [payload]
  {
    var frame := Frame(hash, payload);
    LowBytes(|payload|);
    assert frame[..4] == Le32(|payload|) && frame[4..36] == hash(payload);
    var len := |payload| % MAX_LEN;
    assert frame[36..36 + len] == payload[..len];
    var r := Scan(hash, frame, at);
    assert r.Ok? ==> |r.value.0| > 0 && r.value.0[0] == payload[..len];
  }

  // ------------------------------------------------------------------- the file --

  /** One log file; None while it does not exist. */
  class LogFile {
    var bytes: Option<Bytes>

    constructor ()
      ensures bytes == None
    {
      bytes := None;
    }

    /** Creates the file where it is missing, and sets its length: cut short, or grown with zeros. */
    method OpenAppend(whole: nat)
      modifies this
      ensures bytes.Some? && |bytes.value| == whole
      ensures var was := if old(bytes).Some? then old(bytes).value else [];
        if whole <= |was| then bytes.value == was[..whole]
        else bytes.value == was + seq(whole - |was|, _ => 0)
    {
      var was := if bytes.Some? then bytes.value else [];
      if whole <= |was| {
        bytes := Some(was[..whole]);
      } else {
        bytes := Some(was + seq(whole - |was|, _ => 0));
      }
    }

    method Append(hash: Bytes -> Digest, payload: Bytes)
      requires bytes.Some?
      modifies this
      ensures bytes == Some(old(bytes).value + Frame(hash, payload))
    {
      var frame: Bytes := [];
      frame := frame + Le32(|payload|);
      frame := frame + hash(payload);
      frame := frame + payload;
      assert frame == Frame(hash, payload);
      bytes := Some(bytes.value + frame);
    }
  }

  datatype Refused = EventsRefused(at: nat) | ExchangeRefused(at: nat)

  /** What opening leaves of a file that reads: its whole records, and nothing behind them. */
  lemma OpensWhole(hash: Bytes -> Digest, file: Option<Bytes>)
    requires ReadOf(hash, file).Ok?
    ensures var (payloads, end) := ReadOf(hash, file).value;
      var was := if file.Some? then file.value else [];
      && end <= |was| && was[..end] == Log(hash, payloads)
      && ReadOf(hash, Some(was[..end])) == Ok((payloads, end))
  {
    if file.Some? {
      RecoverThenAppend(hash, file.value, []);
    } else {
      ScanEmpty(hash, 0);
    }
  }

  /** A run's two logs. */
  class Tape {
    const events: LogFile
    const exchange: LogFile

    constructor (events: LogFile, exchange: LogFile)
      ensures this.events == events && this.exchange == exchange
    {
      this.events := events;
      this.exchange := exchange;
    }

    /** Both logs are read before either is touched: one refusal leaves both as they were, and otherwise both are left
        with exactly their whole records. */
    method Open(hash: Bytes -> Digest) returns (r: Option<Refused>)
      requires events != exchange
      modifies events, exchange
      ensures var e, x := ReadOf(hash, old(events.bytes)), ReadOf(hash, old(exchange.bytes));
        && (e.Err? ==> r == Some(EventsRefused(e.error)))
        && (e.Ok? && x.Err? ==> r == Some(ExchangeRefused(x.error)))
        && (e.Err? || x.Err? ==> events.bytes == old(events.bytes) && exchange.bytes == old(exchange.bytes))
        && (e.Ok? && x.Ok? ==>
              && r == None
              && events.bytes == Some(Log(hash, e.value.0)) && exchange.bytes == Some(Log(hash, x.value.0))
              && ReadOf(hash, events.bytes) == Ok((e.value.0, |events.bytes.value|))
              && ReadOf(hash, exchange.bytes) == Ok((x.value.0, |exchange.bytes.value|)))
    {
      hide ReadOf, Log;
      var e := ReadFrames(hash, events.bytes);
      if e.Err? {
        return Some(EventsRefused(e.error));
      }
      var x := ReadFrames(hash, exchange.bytes);
      if x.Err? {
        return Some(ExchangeRefused(x.error));
      }
      OpensWhole(hash, events.bytes);
      OpensWhole(hash, exchange.bytes);
      events.OpenAppend(e.value.1);
      exchange.OpenAppend(x.value.1);
      return None;
    }
  }
}
