/**
 The discovery task: which datagrams it takes for a probe, and what it answers. Messages travel by
 value, with a data field of fixed size.
 */
module Discovery {
  import opened CText
  import opened Decimal

  const DATA_SIZE := 1024
  const PROBE := "alpacadiscovery1"

  type Address = nat

  datatype MessageFields = Message(data: seq<char>, length: nat, source: Address, sock: int)

  /** `udp_message_t`: the data field has a fixed size, and every length stays within it. */
  type Message = m: MessageFields | |m.data| == DATA_SIZE && m.length <= DATA_SIZE
    witness Message(seq(DATA_SIZE, _ => NUL), 0, 0, 0)

  type Port = p: nat | p < 0x1_0000

  /** The data field after `memset` to zero and a copy of the text to its front. */
  function DataOf(text: string): (r: seq<char>)
    requires |text| <= DATA_SIZE
    ensures |r| == DATA_SIZE
  {
    text + seq(DATA_SIZE - |text|, _ => NUL)
  }

  predicate IsDatagram(d: string) {
    |d| < DATA_SIZE
  }

  /** What the UDP task makes of a datagram. */
  function Incoming(d: string, source: Address, sock: int): Message
    requires IsDatagram(d)
  {
    Message(DataOf(d), |d|, source, sock)
  }

  // ---- the probe ----

  /** `strncmp(a, b, n) == 0`, where `b` is terminated. */
  predicate StrNCmpEqual(a: seq<char>, b: seq<char>, n: nat)
    requires n <= |a| && NUL in b
    decreases n
  {
    if n == 0 then true
    else if a[0] != b[0] then false
    else if a[0] == NUL then true
    else StrNCmpEqual(a[1..], b[1..], n - 1)
  }

  /** The comparison accepts the prefixes of the text, and the text with its terminator and more. */
  lemma {:induction false} StrNCmpMeaning(a: seq<char>, text: string, n: nat)
    requires n <= |a| && NUL !in text
    ensures StrNCmpEqual(a, text + [NUL], n) <==> a[..n] <= text || text + [NUL] <= a[..n]
    decreases n
  {
    var b := text + [NUL];
    if n > 0 {
      if text != [] {
        assert b[1..] == text[1..] + [NUL];
        assert a[..n] == [a[0]] + a[1..][..n - 1];
        assert text == [text[0]] + text[1..];
        assert b == [text[0]] + (text[1..] + [NUL]);
        StrNCmpMeaning(a[1..], text[1..], n - 1);
      } else {
        assert b == [NUL];
      }
    }
  }

  predicate IsProbe(m: Message) {
    StrNCmpEqual(m.data, PROBE + [NUL], m.length)
  }

  /** The test on a received datagram, given by the datagram alone. */
  lemma ProbesAre(d: string, source: Address, sock: int)
    requires IsDatagram(d)
    ensures IsProbe(Incoming(d, source, sock)) <==> d <= "alpacadiscovery1" || "alpacadiscovery1" + [NUL] <= d
  {
    StrNCmpMeaning(DataOf(d), PROBE, |d|);
    assert DataOf(d)[..|d|] == d;
  }

  /**
   The comment beside the test asks for equality. That is what the test decides unless the
   datagram is a shorter prefix of the probe or continues behind it with a NUL.
   */
  lemma ProbeIsEqualityUnless(d: string, source: Address, sock: int)
    requires IsDatagram(d)
    ensures (IsProbe(Incoming(d, source, sock)) <==> d == PROBE)
            <==>
            !(|d| < |PROBE| && d <= PROBE) && !(PROBE + [NUL] <= d)
  {
    ProbesAre(d, source, sock);
  }

  /** For one, the empty datagram is taken for a probe. */
  lemma EmptyIsProbe(source: Address, sock: int)
    ensures IsProbe(Incoming("", source, sock)) && "" != PROBE
  {
    ProbesAre("", source, sock);
  }

  // ---- the reply ----

  const REPLY_HEAD := "{\"AlpacaPort\":"

  /** "{\"AlpacaPort\":%d}" */
  function ResponseText(port: Port): string {
    REPLY_HEAD + IntText(port) + "}"
  }

  /** A client that reads the port out of a reply. */
  function ReadPort(s: string): Option<int> {
    if !("{\"AlpacaPort\":" <= s) then None
    else
      var rest := s[14..];
      var r := Strtol(rest);
      if rest[r.end..] == "}" then Some(r.value) else None
  }

  /** The rendered reply fits both buffers and holds no NUL. */
  lemma ResponseFits(port: Port)
    ensures |ResponseText(port)| <= 20 && NUL !in ResponseText(port)
  {
    NatTextLength(port, 5);
    NatTextValue(port);
    assert |REPLY_HEAD| == 14;
  }

  /** The port reads back, so different ports give different replies. */
  lemma ResponseReadsBack(port: Port)
    ensures ReadPort(ResponseText(port)) == Some(port)
  {
    var s := ResponseText(port);
    assert s == REPLY_HEAD + (IntText(port) + "}");
    var rest := s[|REPLY_HEAD|..];
    assert rest == IntText(port) + "}";
    StrtolReadsIntText(port, "}");
    assert rest[|IntText(port)|..] == "}";
  }

  lemma ResponsesDiffer(p: Port, q: Port)
    ensures ResponseText(p) == ResponseText(q) <==> p == q
  {
    ResponseReadsBack(p);
    ResponseReadsBack(q);
  }

  function ReplyTo(m: Message, port: Port): Message {
    ResponseFits(port);
    m.(data := DataOf(ResponseText(port)), length := |ResponseText(port)|)
  }

  // ---- the two loops' own buffers ----

  method Clear(data: array<char>)
    modifies data
    ensures data[..] == seq(data.Length, _ => NUL)
  {
    forall i | 0 <= i < data.Length {
      data[i] := NUL;
    }
  }

  /** `memcpy` or `strcpy` to the front of a cleared field. */
  method CopyToFront(data: array<char>, text: string)
    requires data.Length == DATA_SIZE && |text| <= DATA_SIZE
    requires data[..] == seq(DATA_SIZE, _ => NUL)
    modifies data
    ensures data[..] == DataOf(text)
  {
    forall i | 0 <= i < |text| {
      data[i] := text[i];
    }
  }

  /** One iteration of the UDP task, up to the queue: `received` is in the receive buffer. */
  method BuildMessage(rx: array<char>, received: nat, source: Address, sock: int) returns (m: Message)
    requires rx.Length == DATA_SIZE && received < DATA_SIZE
    ensures m == Incoming(rx[..received], source, sock)
  {
    var data := new char[DATA_SIZE];
    Clear(data);
    CopyToFront(data, rx[..received]);
    m := Message(data[..], received, source, sock);
  }

  class DiscoveryTask {
    const port: Port
    const response: string
    const responseLength: nat
    const data: array<char>  // the data field of its one message
    var length: nat
    var source: Address
    var sock: int

    ghost predicate Valid() {
      && data.Length == DATA_SIZE
      && response == ResponseText(port) && responseLength == |response| <= 20
    }

    ghost function Current(): Message
      requires Valid() && length <= DATA_SIZE
      reads this, data
    {
      Message(data[..], length, source, sock)
    }

    constructor (port: Port)
        ensures Valid() && this.port == port && fresh(data)
    {
      ResponseFits(port);
      this.port := port;
      response := ResponseText(port);
      responseLength := |ResponseText(port)|;
      data := new char[DATA_SIZE];
      length, source, sock := 0, 0, 0;
    }

    /** The queue copies a message into the one kept here. */
    method Load(m: Message)
      requires Valid()
      modifies this, data
      ensures Valid() && length <= DATA_SIZE && Current() == m
    {
      forall i | 0 <= i < DATA_SIZE {
        data[i] := m.data[i];
      }
      assert data[..] == m.data;
      length, source, sock := m.length, m.source, m.sock;
    }

    /** One iteration behind the queue: a probe is overwritten with the reply and sent back. */
    method Process() returns (sent: Option<Message>)
      requires Valid() && length <= DATA_SIZE
      modifies this, data
      ensures Valid()
      ensures sent == if old(IsProbe(Current())) then Some(ReplyTo(old(Current()), port)) else None
      ensures sent.Some? ==> sent.value.data[..sent.value.length] == ResponseText(port)
    {
      sent := None;
      if StrNCmpEqual(data[..], PROBE + [NUL], length) {
        Clear(data);
        CopyToFront(data, response);
        length := responseLength;
        sent := Some(Message(data[..], length, source, sock));
      }
    }
  }
}
