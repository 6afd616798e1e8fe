/** The length-framed packet stream of libevwork_using: Jpacket::end and parse, CJsonData::onData, and
    CClientConn::__onRead, which accumulates and calls it. */
module Packets {

  type Bytes = seq<bv8>

  const HEADER_SIZE := 4
  const MAX_INPUT_SIZE := 8 * 1024 * 1024
  const READ_BUFF_SIZE := 8 * 1024
  const NO_LIMIT := 0xffff_ffff // (uint32_t)-1
  const XOR_KEY: bv8 := 16
  const TWO_32 := 0x1_0000_0000
  const TWO_64 := 0x1_0000_0000_0000_0000

  type Uint32 = n: int | 0 <= n < 0x1_0000_0000

  type Uint64 = n: int | 0 <= n < 0x1_0000_0000_0000_0000

  function Wrap32(n: int): Uint32 { n % TWO_32 }

  function Wrap64(n: int): Uint64 { n % TWO_64 }

  // ---------- one packet ----------

  function Flip(b: bv8): bv8 { b ^ XOR_KEY }

  function Xored(s: Bytes): (r: Bytes)
    ensures |r| == |s|
  {
    seq(|s|, i requires 0 <= i < |s| => Flip(s[i]))
  }

  lemma FlipTwice(b: bv8)
    ensures Flip(Flip(b)) == b
  {
  }

  /** The codec undoes itself. */
  lemma XorTwice(s: Bytes)
    ensures Xored(Xored(s)) == s
  {
    hide Flip;
    forall i | 0 <= i < |s| ensures Xored(Xored(s))[i] == s[i] { FlipTwice(s[i]); }
  }

  function Num(b: bv8): int { b as int }

  function Digit(n: nat): bv8 { (n % 256) as bv8 }

  lemma SmallNum(k: nat)
    requires k < 256
    ensures Num(k as bv8) == k
  {
  }

  lemma DigitNum(n: nat)
    ensures Num(Digit(n)) == n % 256
  {
    hide Num;
    SmallNum(n % 256);
  }

  lemma NumRange(b: bv8)
    ensures 0 <= Num(b) < 256
  {
  }

  /** Header::peekLen, on a little-endian machine. */
  function PeekLen(s: Bytes): Uint32
    requires |s| >= HEADER_SIZE
  {
    NumRange(s[0]);
    NumRange(s[1]);
    NumRange(s[2]);
    NumRange(s[3]);
    Num(s[0]) + 256 * Num(s[1]) + 65536 * Num(s[2]) + 16777216 * Num(s[3])
  }

  /** The memory of the header's length field. */
  function HeaderOf(n: nat): Bytes { [Digit(n), Digit(n / 256), Digit(n / 256 / 256), Digit(n / 256 / 256 / 256)] }

  lemma PeekHeader(n: nat, rest: Bytes)
    requires n < TWO_32
    ensures PeekLen(HeaderOf(n) + rest) == n
  {
    hide Num, Digit;
    var n1 := n / 256;
    var n2 := n1 / 256;
    var n3 := n2 / 256;
    DigitNum(n);
    DigitNum(n1);
    DigitNum(n2);
    DigitNum(n3);
    Base256(n, n1, n2, n3);
  }

  lemma Base256(n: nat, n1: nat, n2: nat, n3: nat)
    requires n < TWO_32 && n1 == n / 256 && n2 == n1 / 256 && n3 == n2 / 256
    ensures n % 256 + 256 * (n1 % 256) + 65536 * (n2 % 256) + 16777216 * (n3 % 256) == n
  {
  }

  /** What Jpacket::end makes of a text; the length field holds 32 bits. */
  function Encoded(text: Bytes): Bytes { HeaderOf(Wrap32(|text|)) + Xored(text) }

  // ---------- a whole buffer ----------

  datatype Verdict = Good | Bad | Overrun

  /** What one call of onData does: the texts it dispatches, how many bytes it uses up, and how it ends. */
  datatype Outcome = Outcome(texts: seq<Bytes>, used: nat, verdict: Verdict)

  datatype Step = Wait | Reject | PastEnd | Packet(text: Bytes, size: nat)

  /** What the head of the buffer is, by the tests of onData, 32-bit sums included. A length whose sum with the header
      size wraps passes the test for completeness, and the packet then reaches past the end of any buffer of less than
      2^32 bytes. `ok` is whether a text parses. */
  function First(s: Bytes, limit: Uint32, ok: Bytes -> bool): (r: Step)
    ensures r.Packet? ==> HEADER_SIZE <= r.size <= |s|
    ensures r.PastEnd? && |s| < TWO_32 ==> HEADER_SIZE <= |s| < HEADER_SIZE + PeekLen(s)
  {
    if |s| < HEADER_SIZE then Wait
    else
      var len := PeekLen(s);
      if limit != NO_LIMIT && len > Wrap32(limit - HEADER_SIZE) then Reject
      else if |s| < Wrap32(HEADER_SIZE + len) then Wait
      else if HEADER_SIZE + len >= TWO_32 then PastEnd
      else
        var text := Xored(s[HEADER_SIZE..HEADER_SIZE + len]);
        if ok(text) then Packet(text, HEADER_SIZE + len) else Reject
  }

  function Process(s: Bytes, limit: Uint32, ok: Bytes -> bool): (r: Outcome)
    ensures r.used <= |s|
    decreases |s|
  {
    match First(s, limit, ok)
    case Wait => Outcome([], 0, Good)
    case Reject => Outcome([], 0, Bad)
    case PastEnd => Outcome([], 0, Overrun)
    case Packet(text, size) =>
      var r := Process(s[size..], limit, ok);
      Outcome([text] + r.texts, size + r.used, r.verdict)
  }

  /** The outcome `r` of what follows, with `texts` dispatched and `used` bytes used up before. */
  function Then(texts: seq<Bytes>, used: nat, r: Outcome): Outcome {
    Outcome(texts + r.texts, used + r.used, r.verdict)
  }

  /** A limit under which the 32-bit sums of onData cannot wrap. */
  predicate SafeLimit(limit: Uint32) { HEADER_SIZE <= limit < NO_LIMIT }

  lemma {:induction false} SafeNeverOverruns(s: Bytes, limit: Uint32, ok: Bytes -> bool)
    requires SafeLimit(limit)
    ensures Process(s, limit, ok).verdict != Overrun
    decreases |s|
  {
    hide PeekLen, Xored;
    var f := First(s, limit, ok);
    if f.Packet? { SafeNeverOverruns(s[f.size..], limit, ok); }
  }

  /** Some buffer makes onData read past its end iff the limit is not safe: the sum of length and header size wraps. */
  lemma OverrunIff(limit: Uint32, ok: Bytes -> bool)
    ensures (exists s: Bytes :: Process(s, limit, ok).verdict == Overrun) <==> !SafeLimit(limit)
  {
    hide Process, HeaderOf;
    if SafeLimit(limit) {
      forall s: Bytes ensures Process(s, limit, ok).verdict != Overrun { SafeNeverOverruns(s, limit, ok); }
    } else {
      LongHeader(limit, ok);
    }
  }

  lemma LongHeader(limit: Uint32, ok: Bytes -> bool)
    requires !SafeLimit(limit)
    ensures Process(HeaderOf(0xffff_fffc), limit, ok).verdict == Overrun
  {
    hide HeaderOf, PeekLen, Xored;
    var s := HeaderOf(0xffff_fffc);
    HeaderLength(0xffff_fffc);
    assert s + [] == s;
    PeekHeader(0xffff_fffc, []);
    assert First(s, limit, ok) == PastEnd;
  }

  // ---------- chunks ----------

  /** More bytes behind a head that has been judged do not change the judgement. */
  lemma FirstStable(a: Bytes, b: Bytes, limit: Uint32, ok: Bytes -> bool)
    requires !First(a, limit, ok).Wait?
    ensures First(a + b, limit, ok) == First(a, limit, ok)
  {
    hide Xored, PeekLen;
    PeekSame(a, b);
    var len := PeekLen(a);
    if HEADER_SIZE + len <= |a| { assert (a + b)[HEADER_SIZE..HEADER_SIZE + len] == a[HEADER_SIZE..HEADER_SIZE + len]; }
  }

  lemma PeekSame(a: Bytes, b: Bytes)
    requires |a| >= HEADER_SIZE
    ensures PeekLen(a + b) == PeekLen(a)
  {
  }

  /** The outcome of a stream that goes on after `p` with what is left of `a`. */
  function Continued(p: Outcome, a: Bytes, b: Bytes, limit: Uint32, ok: Bytes -> bool): Outcome
    requires p.used <= |a|
  {
    if p.verdict.Good? then Then(p.texts, p.used, Process(a[p.used..] + b, limit, ok)) else p
  }

  /** Under every limit, processing a stream in two parts, keeping what the first has left over, is processing it at
      once; and a stream rejected or overrun at some packet stays so there, whatever follows. */
  lemma {:induction false} ProcessAppend(a: Bytes, b: Bytes, limit: Uint32, ok: Bytes -> bool)
    ensures Process(a + b, limit, ok) == Continued(Process(a, limit, ok), a, b, limit, ok)
    decreases |a|
  {
    hide First, Then, Continued;
    var f := First(a, limit, ok);
    if f.Packet? {
      ProcessAppend(a[f.size..], b, limit, ok);
      AppendPacket(a, b, limit, ok);
    } else {
      AppendOther(a, b, limit, ok);
    }
  }

  lemma AppendOther(a: Bytes, b: Bytes, limit: Uint32, ok: Bytes -> bool)
    requires !First(a, limit, ok).Packet?
    ensures Process(a + b, limit, ok) == Continued(Process(a, limit, ok), a, b, limit, ok)
  {
    hide First;
    if First(a, limit, ok).Wait? { assert a[0..] + b == a + b; } else { FirstStable(a, b, limit, ok); }
  }

  lemma AppendPacket(a: Bytes, b: Bytes, limit: Uint32, ok: Bytes -> bool)
    requires First(a, limit, ok).Packet?
    requires var a' := a[First(a, limit, ok).size..];
      Process(a' + b, limit, ok) == Continued(Process(a', limit, ok), a', b, limit, ok)
    ensures Process(a + b, limit, ok) == Continued(Process(a, limit, ok), a, b, limit, ok)
  {
    hide First, Then, Process;
    var f := First(a, limit, ok);
    var a', p := a[f.size..], Process(a[f.size..], limit, ok);
    FirstStable(a, b, limit, ok);
    ProcessPacket(a, limit, ok);
    ProcessPacket(a + b, limit, ok);
    assert (a + b)[f.size..] == a' + b;
    if p.verdict.Good? {
      assert a[f.size + p.used..] == a'[p.used..];
      ThenThen(f.text, f.size, p, Process(a'[p.used..] + b, limit, ok));
    } else {
      ThenIs([f.text], f.size, p, Good);
    }
  }

  lemma ProcessPacket(a: Bytes, limit: Uint32, ok: Bytes -> bool)
    requires First(a, limit, ok).Packet?
    ensures var f := First(a, limit, ok);
      Process(a, limit, ok) == Then([f.text], f.size, Process(a[f.size..], limit, ok))
  {
    hide First;
  }

  lemma ThenThen(text: Bytes, size: nat, p: Outcome, r: Outcome)
    ensures var q := Then([text], size, p); Then(q.texts, q.used, r) == Then([text], size, Then(p.texts, p.used, r))
    ensures Then([text], size, p) == Outcome([text] + p.texts, size + p.used, p.verdict)
  {
    assert [text] + (p.texts + r.texts) == [text] + p.texts + r.texts;
  }

  /** The first part of a stream that never overruns does not either. */
  lemma PartNeverOverruns(a: Bytes, whole: Bytes, limit: Uint32, ok: Bytes -> bool)
    requires a <= whole && Process(whole, limit, ok).verdict != Overrun
    ensures Process(a, limit, ok).verdict != Overrun
  {
    hide Process;
    assert whole == a + whole[|a|..];
    ProcessAppend(a, whole[|a|..], limit, ok);
  }

  // ---------- round trip ----------

  function Stream(texts: seq<Bytes>): Bytes {
    if texts == [] then [] else Encoded(texts[0]) + Stream(texts[1..])
  }

  /** The text parses, and its packet has a size that 32 bits can hold and the limit lets pass. */
  predicate Acceptable(text: Bytes, limit: Uint32, ok: Bytes -> bool) {
    ok(text) && HEADER_SIZE + |text| < TWO_32 && (limit == NO_LIMIT || |text| <= Wrap32(limit - HEADER_SIZE))
  }

  lemma FirstEncoded(text: Bytes, rest: Bytes, limit: Uint32, ok: Bytes -> bool)
    requires Acceptable(text, limit, ok)
    ensures First(Encoded(text) + rest, limit, ok) == Packet(text, HEADER_SIZE + |text|)
  {
    hide PeekLen, HeaderOf, Xored;
    var s := Encoded(text) + rest;
    HeaderLength(|text|);
    assert s == HeaderOf(|text|) + (Xored(text) + rest);
    PeekHeader(|text|, Xored(text) + rest);
    assert s[HEADER_SIZE..HEADER_SIZE + |text|] == Xored(text);
    XorTwice(text);
  }

  lemma HeaderLength(n: nat)
    ensures |HeaderOf(n)| == HEADER_SIZE && forall text :: |Encoded(text)| == HEADER_SIZE + |text|
  {
  }

  /** Encoded texts one after the other come out as the same texts in the same order, and nothing is left. */
  lemma {:induction false} RoundTrip(texts: seq<Bytes>, limit: Uint32, ok: Bytes -> bool)
    requires forall i :: 0 <= i < |texts| ==> Acceptable(texts[i], limit, ok)
    ensures Process(Stream(texts), limit, ok) == Outcome(texts, |Stream(texts)|, Good)
  {
    hide First, Encoded;
    if texts == [] {
      assert First([], limit, ok) == Wait by { FirstEmpty(limit, ok); }
    } else {
      var rest := Stream(texts[1..]);
      FirstEncoded(texts[0], rest, limit, ok);
      HeaderLength(0);
      assert Stream(texts)[HEADER_SIZE + |texts[0]|..] == rest;
      RoundTrip(texts[1..], limit, ok);
    }
  }

  lemma FirstEmpty(limit: Uint32, ok: Bytes -> bool)
    ensures First([], limit, ok) == Wait
  {
  }


  // ---------- Jpacket ----------

  /** Jpacket::xorfunc */
  method XorFunc(str: array<bv8>)
    requires str.Length < 0x8000_0000 // its length fits an int
    modifies str
    ensures str[..] == Xored(old(str[..]))
  {
    hide Flip;
    var strLen := str.Length;
    var i := 0;
    while i < strLen
      invariant 0 <= i <= strLen
      invariant forall k :: 0 <= k < i ==> str[k] == Flip(old(str[k]))
      invariant forall k :: i <= k < strLen ==> str[k] == old(str[k])
    {
      str[i] := Flip(str[i]);
      i := i + 1;
    }
  }

  class Jpacket {
    var length: Uint32 // header.length
    var str: Bytes

    constructor ()
    {
      length, str := 0, [];
    }

    /** Jpacket::end, for the text that the JSON value prints as. */
    method End(text: Bytes)
      requires |text| < 0x8000_0000
      modifies this
      ensures str == Encoded(text) && PeekLen(str) == |text|
    {
      hide HeaderOf, PeekLen, Xored;
      var out := new bv8[|text|](i requires 0 <= i < |text| => text[i]);
      assert out[..] == text;
      XorFunc(out);
      HeaderLength(|text|);
      PeekHeader(|text|, Xored(text));
      length := Wrap32(out.Length);
      str := [];
      str := str + HeaderOf(length);
      str := str + out[..];
    }

    /** Jpacket::parse */
    static method Parse(str: Bytes, ok: Bytes -> bool) returns (rc: int, text: Bytes)
      requires |str| < 0x8000_0000
      ensures text == Xored(str) && rc == if ok(text) then 0 else -1
    {
      var a := new bv8[|str|](i requires 0 <= i < |str| => str[i]);
      assert a[..] == str;
      XorFunc(a);
      text := a[..];
      rc := if ok(text) then 0 else -1;
    }
  }

  // ---------- CJsonData ----------

  class JsonData {
    var proc: Uint32        // m_uProc
    var bytes64: Uint64     // m_uBytes64
    var packetLimit: Uint32
    var dispatched: seq<Bytes> // what __requestDispatch has been given
    const ok: Bytes -> bool // whether the JSON reader accepts a text

    constructor (ok: Bytes -> bool)
      ensures this.ok == ok && packetLimit == 16 * 1024 * 1024 && dispatched == [] && proc == 0 && bytes64 == 0
    {
      this.ok := ok;
      proc, bytes64, packetLimit, dispatched := 0, 0, 16 * 1024 * 1024, [];
    }

    /** setPacketLimit */
    method SetPacketLimit(limit: Uint32)
      modifies this`packetLimit
      ensures packetLimit == limit
    {
      packetLimit := limit;
    }

    /** onData */
    method OnData(pData: Bytes) returns (processed: int)
      requires |pData| < 0x8000_0000 && Process(pData, packetLimit, ok).verdict != Overrun
      modifies this`proc, this`bytes64, this`dispatched
      ensures var r := Process(pData, packetLimit, ok);
        processed == (if r.verdict.Bad? then -1 else r.used) && dispatched == old(dispatched) + r.texts
      ensures var r := Process(pData, packetLimit, ok);
        proc == Wrap32(old(proc) + |r.texts|) && bytes64 == Wrap64(old(bytes64) + r.used)
    {
      hide PeekLen, Xored, Process, First, Wrap64, Then;
      var p, size := 0, |pData|;
      processed := 0;
      ghost var texts: seq<Bytes>, n := [], packetLimit;
      assert pData[0..] == pData;
      ThenIs([], 0, Process(pData, n, ok), Good);
      CountMore(old(proc), 0, old(bytes64), 0, 0);
      while size > 0
        invariant 0 <= p <= |pData| && size == |pData| - p && processed == p && packetLimit == n
        invariant Process(pData, n, ok) == Then(texts, p, Process(pData[p..], n, ok))
          && dispatched == old(dispatched) + texts
        invariant proc == Wrap32(old(proc) + |texts|) && bytes64 == Wrap64(old(bytes64) + p)
      {
        ghost var rest := pData[p..];
        ProcessFirst(rest, n, ok);
        ThenIs(texts, p, Process(rest, n, ok), Good);
        ThenIs(texts, p, Process(rest, n, ok), Bad);
        if size < HEADER_SIZE { break; }
        var len := PeekLen(pData[p..]);
        if packetLimit != NO_LIMIT && len > Wrap32(packetLimit - HEADER_SIZE) { return -1; }
        if size < Wrap32(HEADER_SIZE + len) { break; }
        FirstWhole(rest, n, ok);
        var packet := pData[p + HEADER_SIZE..p + HEADER_SIZE + len];
        assert packet == rest[HEADER_SIZE..HEADER_SIZE + len];
        var rc, text := Jpacket.Parse(packet, ok);
        if rc < 0 { return -1; }
        dispatched := dispatched + [text];
        assert rest[HEADER_SIZE + len..] == pData[p + HEADER_SIZE + len..];
        ThenMore(texts, p, text, HEADER_SIZE + len, Process(pData[p + HEADER_SIZE + len..], n, ok));
        texts := texts + [text];
        p := p + Wrap32(len + HEADER_SIZE);
        size := size - Wrap32(len + HEADER_SIZE);
        processed := processed + Wrap32(len + HEADER_SIZE);
        CountMore(old(proc), |texts| - 1, old(bytes64), p - HEADER_SIZE - len, len + HEADER_SIZE);
        proc := Wrap32(proc + 1);
        bytes64 := Wrap64(bytes64 + Wrap32(len + HEADER_SIZE));
      }
      if size == 0 {
        ProcessFirst(pData[p..], n, ok);
        ThenIs(texts, p, Process(pData[p..], n, ok), Good);
      }
    }
  }

  lemma ThenMore(texts: seq<Bytes>, used: nat, text: Bytes, size: nat, r: Outcome)
    ensures Then(texts, used, Then([text], size, r)) == Then(texts + [text], used + size, r)
  {
    assert texts + ([text] + r.texts) == texts + [text] + r.texts;
  }

  lemma ThenIs(texts: seq<Bytes>, used: nat, r: Outcome, v: Verdict)
    ensures Then(texts, used, r).verdict == r.verdict && Then([], 0, r) == r
    ensures Then(texts, used, Outcome([], 0, v)) == Outcome(texts, used, v)
  {
  }

  lemma CountMore(n: Uint32, k: nat, m: Uint64, p: nat, d: nat)
    ensures n == Wrap32(n) && m == Wrap64(m) && Wrap32(Wrap32(n + k) + 1) == Wrap32(n + k + 1)
      && Wrap64(Wrap64(m + p) + d) == Wrap64(m + p + d)
  {
  }

  /** The tests of onData, as far as they go before the packet is parsed. */
  lemma ProcessFirst(s: Bytes, limit: Uint32, ok: Bytes -> bool)
    ensures |s| < HEADER_SIZE ==> Process(s, limit, ok) == Outcome([], 0, Good)
    ensures |s| >= HEADER_SIZE && limit != NO_LIMIT && PeekLen(s) > Wrap32(limit - HEADER_SIZE) ==>
      Process(s, limit, ok) == Outcome([], 0, Bad)
    ensures |s| >= HEADER_SIZE && (limit == NO_LIMIT || PeekLen(s) <= Wrap32(limit - HEADER_SIZE)) ==>
      |s| < Wrap32(HEADER_SIZE + PeekLen(s)) ==> Process(s, limit, ok) == Outcome([], 0, Good)
  {
    hide PeekLen;
  }

  /** The packet is complete: it is dispatched, or rejected if it does not parse. */
  lemma FirstWhole(s: Bytes, limit: Uint32, ok: Bytes -> bool)
    requires HEADER_SIZE <= |s| < 0x8000_0000 && !(limit != NO_LIMIT && PeekLen(s) > Wrap32(limit - HEADER_SIZE))
    requires |s| >= Wrap32(HEADER_SIZE + PeekLen(s)) && Process(s, limit, ok).verdict != Overrun
    ensures var len := PeekLen(s); HEADER_SIZE + len <= |s| && Wrap32(len + HEADER_SIZE) == len + HEADER_SIZE
    ensures var text := Xored(s[HEADER_SIZE..HEADER_SIZE + PeekLen(s)]);
      Process(s, limit, ok) ==
        if ok(text) then Then([text], HEADER_SIZE + PeekLen(s), Process(s[HEADER_SIZE + PeekLen(s)..], limit, ok))
        else Outcome([], 0, Bad)
  {
    hide PeekLen, Xored;
  }

  // ---------- CClientConn ----------

  datatype State = Open | Overflow | BadPacket | Fault

  /** A connection, its buffered input, and what has arrived on it so far. */
  class ClientConn {
    var input: Bytes   // m_strInput
    var state: State   // anything but Open: the connection has deleted itself
    const data: JsonData
    ghost var stream: Bytes
    ghost const base: seq<Bytes>

    ghost predicate Valid()
      reads this, data
    {
      && |input| <= MAX_INPUT_SIZE
      && var r := Process(stream, data.packetLimit, data.ok);
         data.dispatched == base + r.texts
         && (state == Open ==> r.verdict == Good && input == stream[r.used..])
         && (state == BadPacket ==> r.verdict == Bad)
    }

    constructor (data: JsonData)
      ensures Valid() && this.data == data && stream == [] && input == [] && state == Open && base == data.dispatched
    {
      this.data, base := data, data.dispatched;
      input, state, stream := [], Open, [];
      FirstEmpty(data.packetLimit, data.ok);
    }

    /** The reading loop of __onRead: `avail` is what the socket holds, `fault` whether it then fails or is closed. */
    method Receive(avail: Bytes, fault: bool) returns (stop: bool)
      requires state == Open && |input| <= MAX_INPUT_SIZE
      modifies this`input, this`state
      ensures stop <==> state != Open
      ensures state ==
        if |old(input)| + |avail| > MAX_INPUT_SIZE && (!fault || Crosses(|old(input)|, |avail|)) then Overflow
        else if fault then Fault else Open
      ensures |input| <= MAX_INPUT_SIZE && (!stop ==> input == old(input) + avail)
    {
      hide Crosses;
      var got := 0;
      ghost var blocks := 0;
      while true
        invariant 0 <= got <= |avail| && state == Open && input == old(input) + avail[..got]
          && |input| <= MAX_INPUT_SIZE
        invariant blocks >= 0 && got == READ_BUFF_SIZE * blocks
        decreases |avail| - got
      {
        CrossesAfter(|old(input)|, |avail|, blocks);
        var n := if |avail| - got < READ_BUFF_SIZE then |avail| - got else READ_BUFF_SIZE;
        if n < READ_BUFF_SIZE && fault {
          state := Fault;
          return true;
        }
        if n > 0 {
          if |input| + n > MAX_INPUT_SIZE {
            state := Overflow;
            return true;
          }
          input := input + avail[got..got + n];
        }
        got := got + n;
        if n < READ_BUFF_SIZE { break; }
        blocks := blocks + 1;
      }
      return false;
    }

    /** __onRead */
    method OnRead(avail: Bytes, fault: bool)
      requires Valid() && state == Open && Process(stream + avail, data.packetLimit, data.ok).verdict != Overrun
      modifies this, data`proc, data`bytes64, data`dispatched
      ensures Valid() && state == Afterwards(old(stream), old(input), avail, fault, data.packetLimit, data.ok)
      ensures stream == if state == Overflow || state == Fault then old(stream) else old(stream) + avail
      ensures state == Open ==> |input| <= |old(input)| + |avail|
    {
      hide Process, Crosses;
      ghost var n, ok, s := data.packetLimit, data.ok, stream;
      var stop := Receive(avail, fault);
      if stop { return; }
      stream := stream + avail;
      RestIs(s, avail, n, ok);
      if input != [] {
        var ret := data.OnData(input);
        if ret < 0 {
          state := BadPacket;
        } else if ret > 0 {
          input := input[ret..];
        }
      } else {
        ProcessFirst(input, n, ok);
      }
    }

    lemma Facts()
      requires Valid()
      ensures data.dispatched == base + Process(stream, data.packetLimit, data.ok).texts
      ensures state == Open ==>
        var r := Process(stream, data.packetLimit, data.ok);
        r.verdict == Good && input == stream[r.used..]
      ensures state == BadPacket ==> Process(stream, data.packetLimit, data.ok).verdict == Bad
    {
      hide Process;
    }

    /** Any number of read events, until the connection is given up, for a stream that does not overrun; under a safe
        limit that is every stream. What has been dispatched is what one onData over
        the whole stream dispatches, however the stream was cut, and the connection is closed iff that rejects. */
    method Deliver(chunks: seq<Bytes>)
      requires Valid() && state == Open
      requires Process(stream + Joined(chunks), data.packetLimit, data.ok).verdict != Overrun
      modifies this, data`proc, data`bytes64, data`dispatched
      ensures |old(input)| + |Joined(chunks)| <= MAX_INPUT_SIZE ==> state != Overflow
      ensures state != Fault
      ensures state != Overflow ==>
        var r := Process(old(stream) + Joined(chunks), data.packetLimit, data.ok);
        data.dispatched == base + r.texts && (state == Open <==> r.verdict == Good)
      ensures state == Open ==>
        var r := Process(old(stream) + Joined(chunks), data.packetLimit, data.ok);
        input == (old(stream) + Joined(chunks))[r.used..]
    {
      hide Valid, Process, Crosses, Joined, First, Continued, PeekLen, Xored, HeaderOf;
      Facts();
      ghost var n, ok, whole := data.packetLimit, data.ok, old(stream) + Joined(chunks);
      JoinNext(chunks, 0);
      assert stream + [] == stream;
      var i := 0;
      while i < |chunks| && state == Open
        invariant 0 <= i <= |chunks| && Valid() && data.packetLimit == n && state != Fault
        invariant state == Open ==>
          stream == old(stream) + Joined(chunks[..i]) && |input| <= |old(input)| + |Joined(chunks[..i])|
        invariant state == BadPacket ==> stream <= whole
        invariant state == Overflow ==> |old(input)| + |Joined(chunks)| > MAX_INPUT_SIZE
        decreases |chunks| - i
      {
        JoinOn(old(stream), chunks, i);
        PartNeverOverruns(stream + chunks[i], whole, n, ok);
        OnRead(chunks[i], false);
        Facts();
        i := i + 1;
      }
      Facts();
      if state == Open {
        assert chunks[..|chunks|] == chunks;
      } else if state == BadPacket {
        BadStays(stream, whole, n, ok);
      }
    }
  }

  /** The cap and the blocks, when `blocks` of them have been read. */
  lemma CrossesAfter(have: nat, more: nat, blocks: nat)
    requires READ_BUFF_SIZE * blocks <= more
    ensures more < READ_BUFF_SIZE * (blocks + 1) ==>
      (Crosses(have, more) <==> have + READ_BUFF_SIZE * blocks > MAX_INPUT_SIZE)
    ensures READ_BUFF_SIZE * (blocks + 1) <= more && have + READ_BUFF_SIZE * (blocks + 1) > MAX_INPUT_SIZE ==>
      Crosses(have, more)
  {
  }

  /** The state of the connection after a read event. */
  function Afterwards(stream: Bytes, input: Bytes, avail: Bytes, fault: bool, limit: Uint32, ok: Bytes -> bool): State {
    if |input| + |avail| > MAX_INPUT_SIZE && (!fault || Crosses(|input|, |avail|)) then Overflow
    else if fault then Fault
    else if Process(stream + avail, limit, ok).verdict.Bad? then BadPacket
    else Open
  }

  /** A stream that is rejected stays so, at the same packet, whatever follows. */
  lemma BadStays(a: Bytes, whole: Bytes, limit: Uint32, ok: Bytes -> bool)
    requires Process(a, limit, ok).verdict == Bad && a <= whole
    ensures Process(whole, limit, ok) == Process(a, limit, ok)
  {
    hide Process;
    assert whole == a + whole[|a|..];
    ProcessAppend(a, whole[|a|..], limit, ok);
  }

  lemma RestIs(s: Bytes, b: Bytes, limit: Uint32, ok: Bytes -> bool)
    requires Process(s, limit, ok).verdict == Good
    ensures var p := Process(s, limit, ok); var r := Process(s[p.used..] + b, limit, ok);
      Process(s + b, limit, ok) == Then(p.texts, p.used, r) && (s + b)[p.used + r.used..] == (s[p.used..] + b)[r.used..]
  {
    hide Process;
    ProcessAppend(s, b, limit, ok);
    var u := Process(s, limit, ok).used;
    assert s + b == s[..u] + (s[u..] + b);
  }

  function Joined(chunks: seq<Bytes>): Bytes {
    if chunks == [] then [] else Joined(chunks[..|chunks| - 1]) + chunks[|chunks| - 1]
  }

  lemma JoinNext(chunks: seq<Bytes>, i: nat)
    requires i <= |chunks|
    ensures Joined(chunks[..0]) == [] && (i < |chunks| ==> Joined(chunks[..i + 1]) == Joined(chunks[..i]) + chunks[i])
  {
    if i < |chunks| { assert chunks[..i + 1][..i] == chunks[..i]; }
  }

  lemma {:induction false} JoinSplit(chunks: seq<Bytes>, i: nat)
    requires i <= |chunks|
    ensures Joined(chunks[..i]) <= Joined(chunks)
    decreases |chunks|
  {
    if i == |chunks| {
      assert chunks[..i] == chunks;
    } else {
      var d := chunks[..|chunks| - 1];
      assert d[..i] == chunks[..i];
      JoinSplit(d, i);
    }
  }

  /** One more chunk after the stream `s` and the first `i`. */
  lemma JoinOn(s: Bytes, chunks: seq<Bytes>, i: nat)
    requires i < |chunks|
    ensures s + Joined(chunks[..i]) + chunks[i] == s + Joined(chunks[..i + 1]) <= s + Joined(chunks)
    ensures |Joined(chunks[..i])| + |chunks[i]| == |Joined(chunks[..i + 1])| <= |Joined(chunks)|
  {
    JoinNext(chunks, i);
    JoinSplit(chunks, i + 1);
  }

  /** Whether the cap is passed by the blocks that are read in full. */
  predicate Crosses(have: nat, more: nat) { have + more / READ_BUFF_SIZE * READ_BUFF_SIZE > MAX_INPUT_SIZE }

  /** Encoded texts, sent in any pieces that never fill the input buffer, are dispatched as they were, in order. */
  method SendAndReceive(conn: ClientConn, texts: seq<Bytes>, chunks: seq<Bytes>)
    requires conn.Valid() && conn.state == Open && conn.stream == []
    requires (forall i :: 0 <= i < |texts| ==> Acceptable(texts[i], conn.data.packetLimit, conn.data.ok))
      && Joined(chunks) == Stream(texts)
    modifies conn, conn.data`proc, conn.data`bytes64, conn.data`dispatched
    ensures conn.state == Overflow
      || (conn.state == Open && conn.data.dispatched == conn.base + texts && conn.input == [])
    ensures |old(conn.input)| + |Stream(texts)| <= MAX_INPUT_SIZE ==> conn.state == Open
  {
    hide *;
    RoundTrip(texts, conn.data.packetLimit, conn.data.ok);
    assert [] + Joined(chunks) == Stream(texts);
    conn.Deliver(chunks);
  }
}
