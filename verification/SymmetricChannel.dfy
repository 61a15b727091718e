/**
 One direction of the symmetric channel on one connection: `SymmetricEncryptor::send` and
 `recv` with their transaction counters. A message is two encrypted blocks, its size and
 its data, both stamped with the counter modulo 255. Encryption is abstract: a block that
 arrives whole is decrypted to what was encrypted, anything else is rejected.
 */
module SymmetricChannel {
  import opened Text

  const STAMPS := 255

  datatype Part = SizePart | DataPart

  /** A block on the link: part of message `index`; a block cut short is not whole. */
  datatype Block = Block(index: nat, part: Part, whole: bool)

  /** The receiver waits for a size block, or for `n` bytes of data. */
  datatype Awaiting = Size | Data(n: nat)

  datatype Channel = Channel(
    sent: seq<string>,       // every message handed to send; the sender's counter is its length
    link: seq<Block>,
    received: nat,           // the receiver's counter
    delivered: seq<string>,  // what the receiver's callback got
    awaiting: Awaiting,
    open: bool)              // the receiver closes the connection on its first error

  const NEW_CHANNEL := Channel([], [], 0, [], Size, true)

  /** How the two writes of a message end. */
  datatype Outcome = Sent | FirstFails | FirstCut | SecondFails | SecondCut

  /** The link: the length of a block for a text of some length, and the receiver's buffer. */
  datatype Link = Link(width: nat -> nat, buffer: nat)

  function Byte(n: nat): char {
    (n % 256) as char
  }

  /** The four bytes of a 32-bit number, lowest first. */
  function Bytes4(n: nat): (r: string)
    ensures |r| == 4
  {
    [Byte(n), Byte(n / 0x100), Byte(n / 0x10000), Byte(n / 0x1000000)]
  }

  function Number4(s: string): nat
    requires |s| == 4
  {
    s[0] as nat + 0x100 * s[1] as nat + 0x10000 * s[2] as nat + 0x1000000 * s[3] as nat
  }

  /** A number is its low byte and 256 times the rest. */
  lemma LowByte(n: nat)
    ensures n == n % 0x100 + 0x100 * (n / 0x100)
  {}

  lemma NumberBytes(n: nat)
    ensures Number4(Bytes4(n)) == n % 0x1_0000_0000
  {
    var a, b, c, d := n / 0x100, n / 0x10000, n / 0x1000000, n / 0x1_0000_0000;
    assert b == a / 0x100 && c == b / 0x100 && d == c / 0x100;
    LowByte(n);
    LowByte(a);
    LowByte(b);
    LowByte(c);
    assert n == Number4(Bytes4(n)) + 0x1_0000_0000 * d;
  }

  // ----- Sending and receiving

  /** Blocks on the link belong to messages that were sent. */
  predicate Known(ch: Channel) {
    forall k :: 0 <= k < |ch.link| ==> ch.link[k].index < |ch.sent|
  }

  /** The text inside a block; a message is read as a C string. */
  function TextOf(l: Link, sent: seq<string>, b: Block): string
    requires b.index < |sent|
  {
    var m := CString(sent[b.index]);
    if b.part == DataPart then m else Bytes4(l.width(1 + |m|))
  }

  /** The number of bytes of a block: its text and its stamp, encrypted. */
  function LengthOf(l: Link, sent: seq<string>, b: Block): nat
    requires b.index < |sent|
  {
    l.width(1 + |TextOf(l, sent, b)|)
  }

  /** The fixed length of every size block. */
  function HeadLength(l: Link): nat {
    l.width(5)
  }

  function Blocks(i: nat, outcome: Outcome): seq<Block> {
    match outcome
    case Sent => [Block(i, SizePart, true), Block(i, DataPart, true)]
    case FirstFails => []
    case FirstCut => [Block(i, SizePart, false)]
    case SecondFails => [Block(i, SizePart, true)]
    case SecondCut => [Block(i, SizePart, true), Block(i, DataPart, false)]
  }

  /** `send`: the counter moves on before anything is written; the result is true on error. */
  function Send(ch: Channel, m: string, outcome: Outcome): (r: (Channel, bool))
    ensures Known(ch) ==> Known(r.0)
  {
    (ch.(sent := ch.sent + [m], link := ch.link + Blocks(|ch.sent|, outcome)), outcome != Sent)
  }

  /** `recv` on the next block; the code is 0 while there is nothing to deliver, and negative when it gives up. */
  function Receive(l: Link, ch: Channel): (r: (Channel, int))
    requires Known(ch)
    ensures Known(r.0)
  {
    if !ch.open || ch.link == [] then (ch, 0)
    else
      var b := ch.link[0];
      var text, length := TextOf(l, ch.sent, b), LengthOf(l, ch.sent, b);
      var rest := ch.(link := ch.link[1..]);
      var stamped := b.index % STAMPS == ch.received % STAMPS;
      match ch.awaiting
      case Size =>
        if !b.whole || length < HeadLength(l) then (rest.(open := false), -3)
        else if length > HeadLength(l) || !stamped then (rest.(open := false), -4)
        else if |text| != 4 then (rest.(open := false), -5)
        else if Number4(text) >= l.buffer then (rest.(open := false), -1)
        else (rest.(awaiting := Data(Number4(text))), 0)
      case Data(n) =>
        if !b.whole || length < n then (rest.(open := false), -3)
        else if length > n || !stamped then (rest.(open := false), -4)
        else (rest.(awaiting := Size, received := ch.received + 1, delivered := ch.delivered + [text]), |text|)
  }

  ghost predicate Step(l: Link, ch: Channel, next: Channel) {
    && Known(ch)
    && (next == Receive(l, ch).0 || exists m, outcome :: next == Send(ch, m, outcome).0)
  }

  ghost predicate Run(l: Link, states: seq<Channel>) {
    && states != [] && states[0] == NEW_CHANNEL
    && forall i :: 0 < i < |states| ==> Step(l, states[i - 1], states[i])
  }

  // ----- The link as the receiver finds it

  predicate Follows(a: Block, b: Block) {
    if b.part == SizePart then a.index < b.index else a == Block(b.index, SizePart, true)
  }

  /** Messages lie on the link in the order they were sent, each as a size block, perhaps with its data block behind it. */
  predicate InOrder(link: seq<Block>) {
    forall k :: 0 < k < |link| ==> Follows(link[k - 1], link[k])
  }

  /** What the callback sees of messages. */
  function Texts(messages: seq<string>): (r: seq<string>)
    ensures |r| == |messages| && forall i :: 0 <= i < |r| ==> r[i] == CString(messages[i])
  {
    seq(|messages|, i requires 0 <= i < |messages| => CString(messages[i]))
  }

  /** The next block is where the receiver's state wants it, or belongs to a later message. */
  predicate Fits(l: Link, ch: Channel) {
    match ch.awaiting
    case Size => ch.link != [] ==> ch.link[0].part == SizePart && ch.link[0].index >= ch.received
    case Data(n) =>
      && ch.received < |ch.sent| && n == l.width(1 + |CString(ch.sent[ch.received])|) % 0x1_0000_0000
      && (ch.link != [] ==> if ch.link[0].part == DataPart then ch.link[0].index == ch.received
                                                           else ch.link[0].index > ch.received)
  }

  /** What was delivered is the first messages sent, in order. */
  predicate Prefix(ch: Channel) {
    ch.received <= |ch.sent| && ch.delivered == Texts(ch.sent[..ch.received])
  }

  predicate InStep(l: Link, ch: Channel) {
    Known(ch) && InOrder(ch.link) && Prefix(ch) && (ch.open ==> Fits(l, ch))
  }

  /** The stamp of the next block tells its message from the awaited one: no whole cycle of messages is missing between them. */
  predicate ToldApart(ch: Channel) {
    ch.open && ch.link != [] ==>
      ch.link[0].index <= ch.received || ch.link[0].index % STAMPS != ch.received % STAMPS
  }

  /** The next block passes every test of `recv` but perhaps that of its stamp. */
  predicate Fitting(l: Link, ch: Channel) {
    && Known(ch) && ch.open && ch.link != [] && ch.link[0].whole
    && var text, length := TextOf(l, ch.sent, ch.link[0]), LengthOf(l, ch.sent, ch.link[0]);
       match ch.awaiting
       case Size => length == HeadLength(l) && |text| == 4 && Number4(text) < l.buffer
       case Data(n) => length == n
  }

  predicate StampTells(l: Link, ch: Channel) {
    Fitting(l, ch) ==> ToldApart(ch)
  }

  lemma SendInOrder(ch: Channel, m: string, outcome: Outcome)
    requires Known(ch) && InOrder(ch.link)
    ensures InOrder(Send(ch, m, outcome).0.link)
  {
    var next := Send(ch, m, outcome).0;
    forall k | 0 < k < |next.link| ensures Follows(next.link[k - 1], next.link[k]) {
      if k < |ch.link| {
        assert Follows(ch.link[k - 1], ch.link[k]);
      }
    }
  }

  lemma SendInStep(l: Link, ch: Channel, m: string, outcome: Outcome)
    requires InStep(l, ch)
    ensures InStep(l, Send(ch, m, outcome).0)
  {
    SendInOrder(ch, m, outcome);
    hide TextOf, LengthOf, InOrder, CString;
    assert Send(ch, m, outcome).0.sent[..ch.received] == ch.sent[..ch.received];
  }

  lemma SizeInStep(l: Link, ch: Channel)
    requires InStep(l, ch) && StampTells(l, ch) && ch.open && ch.link != [] && ch.awaiting == Size
    ensures InStep(l, Receive(l, ch).0)
  {
    hide Number4, Bytes4, CString;
    var b := ch.link[0];
    NumberBytes(l.width(1 + |CString(ch.sent[b.index])|));
    assert |ch.link| > 1 ==> Follows(b, ch.link[1]);
  }

  lemma DataInStep(l: Link, ch: Channel)
    requires InStep(l, ch) && StampTells(l, ch) && ch.open && ch.link != [] && ch.awaiting.Data?
    ensures InStep(l, Receive(l, ch).0)
  {
    hide Number4, Bytes4, CString;
    var b := ch.link[0];
    assert |ch.link| > 1 ==> Follows(b, ch.link[1]);
    assert ch.sent[..ch.received + 1] == ch.sent[..ch.received] + [ch.sent[ch.received]];
    assert Texts(ch.sent[..ch.received + 1]) == Texts(ch.sent[..ch.received]) + [CString(ch.sent[ch.received])];
  }

  lemma ReceiveInStep(l: Link, ch: Channel)
    requires InStep(l, ch) && StampTells(l, ch)
    ensures InStep(l, Receive(l, ch).0)
  {
    hide Fits, InOrder, TextOf, LengthOf;
    if ch.open && ch.link != [] {
      if ch.awaiting == Size {
        SizeInStep(l, ch);
      } else {
        DataInStep(l, ch);
      }
    }
  }

  /** A block closes the connection, with a negative code, exactly when it does not fit or its stamp is not the receiver's. */
  lemma RefusalExact(l: Link, ch: Channel)
    requires Known(ch) && ch.open && ch.link != []
    ensures var (next, code) := Receive(l, ch);
      && (next.open <==> Fitting(l, ch) && ch.link[0].index % STAMPS == ch.received % STAMPS)
      && (next.open <==> code >= 0) && (!next.open ==> next.delivered == ch.delivered && next.received == ch.received)
      && next.link == ch.link[1..] && next.sent == ch.sent
  {
    hide TextOf, LengthOf, Number4;
  }

  // ----- Whole runs of one connection

  /**
   Over any run, whatever is lost or cut, deliveries are the first messages sent, in order, as
   long as never a positive multiple of 255 messages is missing in front of a next block that
   is whole and of the wanted length.
   */
  lemma {:induction false} PrefixDelivered(l: Link, states: seq<Channel>)
    requires Run(l, states) && forall i :: 0 <= i < |states| ==> StampTells(l, states[i])
    ensures InStep(l, states[|states| - 1])
  {
    assert InStep(l, NEW_CHANNEL);
    hide InStep, Send, Receive, StampTells;
    var n := |states| - 1;
    if n > 0 {
      PrefixDelivered(l, states[..n]);
      var ch, next := states[n - 1], states[n];
      assert Step(l, ch, next);
      if next == Receive(l, ch).0 {
        ReceiveInStep(l, ch);
      } else {
        var m, outcome :| next == Send(ch, m, outcome).0;
        SendInStep(l, ch, m, outcome);
      }
    }
  }

  /** Messages i to n - 1, each written whole. */
  function Queue(i: nat, n: nat): (r: seq<Block>)
    requires i <= n
    ensures |r| == 2 * (n - i)
    decreases n - i
  {
    if i == n then [] else Blocks(i, Sent) + Queue(i + 1, n)
  }

  lemma {:induction false} QueueSnoc(i: nat, n: nat)
    requires i <= n
    ensures Queue(i, n + 1) == Queue(i, n) + Blocks(n, Sent)
    decreases n - i
  {
    if i < n {
      QueueSnoc(i + 1, n);
      assert Blocks(i, Sent) + (Queue(i + 1, n) + Blocks(n, Sent)) == (Blocks(i, Sent) + Queue(i + 1, n)) + Blocks(n, Sent);
    }
  }

  /**
   Nothing was lost: the sender's counter less the receiver's is the number of messages in
   flight, the first of them without its size block once that was taken.
   */
  predicate Lossless(ch: Channel) {
    && ch.received <= |ch.sent|
    && var queue := Queue(ch.received, |ch.sent|);
    match ch.awaiting
    case Size => ch.link == queue
    case Data(_) => queue != [] && ch.link == queue[1..]
  }

  lemma LosslessSend(l: Link, ch: Channel, m: string)
    requires Lossless(ch)
    ensures Lossless(Send(ch, m, Sent).0)
  {
    QueueSnoc(ch.received, |ch.sent|);
  }

  /** A message small enough for the receiver's buffer and for the four bytes that carry its size. */
  predicate Small(l: Link, m: string) {
    l.width(1 + |CString(m)|) < l.buffer && l.width(1 + |CString(m)|) < 0x1_0000_0000
  }

  /** A whole size block of a small message is accepted exactly when the stamps agree. */
  lemma SizeTaken(l: Link, ch: Channel)
    requires Known(ch) && ch.open && ch.awaiting == Size && ch.link != []
    requires var b := ch.link[0]; b.part == SizePart && b.whole && Small(l, ch.sent[b.index])
    ensures var b := ch.link[0];
      var rest := ch.(link := ch.link[1..]);
      Receive(l, ch) == if b.index % STAMPS == ch.received % STAMPS
                        then (rest.(awaiting := Data(l.width(1 + |CString(ch.sent[b.index])|))), 0)
                        else (rest.(open := false), -4)
  {
    hide Number4, Bytes4, CString;
    NumberBytes(l.width(1 + |CString(ch.sent[ch.link[0].index])|));
  }

  lemma DataTaken(l: Link, ch: Channel)
    requires Known(ch) && ch.open && ch.awaiting.Data? && ch.link != []
    requires var b := ch.link[0]; b.part == DataPart && b.whole && ch.awaiting.n == l.width(1 + |CString(ch.sent[b.index])|)
    requires ch.link[0].index % STAMPS == ch.received % STAMPS
    ensures var text := CString(ch.sent[ch.link[0].index]);
      Receive(l, ch) == (ch.(link := ch.link[1..], awaiting := Size, received := ch.received + 1, delivered := ch.delivered + [text]), |text|)
  {
    hide CString;
  }

  /** With nothing lost and small messages, receiving never fails and takes the next block. */
  lemma LosslessReceive(l: Link, ch: Channel)
    requires InStep(l, ch) && Lossless(ch) && ch.open
    requires forall i :: ch.received <= i < |ch.sent| ==> Small(l, ch.sent[i])
    ensures var next := Receive(l, ch).0;
      Lossless(next) && next.open && ToldApart(ch) && (ch.link != [] ==> next.link == ch.link[1..])
  {
    hide CString, InOrder, Prefix;
    if ch.link != [] {
      hide Receive;
      var queue := Queue(ch.received, |ch.sent|);
      assert queue == Blocks(ch.received, Sent) + Queue(ch.received + 1, |ch.sent|);
      var n := l.width(1 + |CString(ch.sent[ch.received])|);
      assert Small(l, ch.sent[ch.received]) && n % 0x1_0000_0000 == n;
      if ch.awaiting == Size {
        SizeTaken(l, ch);
      } else {
        DataTaken(l, ch);
        assert queue[1..][1..] == Queue(ch.received + 1, |ch.sent|);
      }
    }
  }

  /** A connection on which nothing was lost and nothing is too large. */
  predicate Flowing(l: Link, ch: Channel) {
    ch.open && InStep(l, ch) && Lossless(ch) && forall i :: 0 <= i < |ch.sent| ==> Small(l, ch.sent[i])
  }

  lemma ReceiveFlowing(l: Link, ch: Channel)
    requires Flowing(l, ch)
    ensures Flowing(l, Receive(l, ch).0)
  {
    hide Lossless, Small;
    assert Known(ch) && Receive(l, ch).0.sent == ch.sent;
    hide InStep;
    hide Receive;
    LosslessReceive(l, ch);
    ReceiveInStep(l, ch);
  }

  lemma SendFlowing(l: Link, ch: Channel, m: string)
    requires Flowing(l, ch) && Small(l, m)
    ensures Flowing(l, Send(ch, m, Sent).0)
  {
    hide InStep, Lossless, Small;
    LosslessSend(l, ch, m);
    SendInStep(l, ch, m, Sent);
  }

  ghost predicate FlowingStep(l: Link, ch: Channel, next: Channel) {
    && Known(ch)
    && (next == Receive(l, ch).0 || exists m :: Small(l, m) && next == Send(ch, m, Sent).0)
  }

  /** Over any run whose writes all succeed, the two counters differ by the number of messages in flight. */
  lemma {:induction false} LosslessRun(l: Link, states: seq<Channel>)
    requires states != [] && states[0] == NEW_CHANNEL
    requires forall i :: 0 < i < |states| ==> FlowingStep(l, states[i - 1], states[i])
    ensures var last := states[|states| - 1];
      Flowing(l, last) && |last.sent| - last.received == (|last.link| + 1) / 2
  {
    var n := |states| - 1;
    if n > 0 {
      hide Flowing, Receive, Send, Small;
      LosslessRun(l, states[..n]);
      var ch, next := states[n - 1], states[n];
      assert FlowingStep(l, ch, next);
      if next == Receive(l, ch).0 {
        ReceiveFlowing(l, ch);
      } else {
        var m :| Small(l, m) && next == Send(ch, m, Sent).0;
        SendFlowing(l, ch, m);
      }
    }
    FlowingCounts(l, states[n]);
  }

  lemma FlowingCounts(l: Link, ch: Channel)
    requires Flowing(l, ch)
    ensures |ch.sent| - ch.received == (|ch.link| + 1) / 2
  {
    hide InStep, Small;
  }

  function Received(l: Link, ch: Channel, times: nat): Channel
    requires Known(ch)
    decreases times
  {
    if times == 0 then ch else Received(l, Receive(l, ch).0, times - 1)
  }

  /** Everything sent was received. */
  predicate Settled(ch: Channel) {
    ch.open && ch.link == [] && ch.awaiting == Size && ch.received == |ch.sent|
  }

  /** Two reads take a message from a settled channel. */
  lemma SettledPass(l: Link, ch: Channel, m: string)
    requires Settled(ch) && Small(l, m)
    ensures var first := Receive(l, Send(ch, m, Sent).0);
      && first.1 == 0 && first.0.received == ch.received && first.0.open
      && Receive(l, first.0) == (ch.(sent := ch.sent + [m], received := ch.received + 1, delivered := ch.delivered + [CString(m)]), |CString(m)|)
  {
    hide CString, Small;
    var before := Send(ch, m, Sent).0;
    assert before.link == [Block(|ch.sent|, SizePart, true), Block(|ch.sent|, DataPart, true)];
    assert before.sent[|ch.sent|] == m;
    hide Receive;
    SizeTaken(l, before);
    DataTaken(l, Receive(l, before).0);
  }

  lemma SentKept(l: Link, ch: Channel)
    requires Known(ch)
    ensures Receive(l, ch).0.sent == ch.sent
  {}

  lemma ReceivedKept(l: Link, ch: Channel)
    requires Known(ch)
    ensures Receive(l, ch).0.received >= ch.received
  {}

  /** However many messages are in flight, reading the link empty delivers them all. */
  lemma {:induction false} Drained(l: Link, ch: Channel)
    requires InStep(l, ch) && Lossless(ch) && ch.open
    requires forall i :: ch.received <= i < |ch.sent| ==> Small(l, ch.sent[i])
    ensures var last := Received(l, ch, |ch.link|);
      last.open && last.link == [] && last.delivered == Texts(ch.sent) && last.received == |ch.sent|
    decreases |ch.link|
  {
    if ch.link == [] {
      assert ch.sent[..ch.received] == ch.sent;
    } else {
      DrainedStep(l, ch);
      hide Small, Receive, InStep, Texts, Lossless;
      Drained(l, Receive(l, ch).0);
    }
  }

  lemma DrainedStep(l: Link, ch: Channel)
    requires InStep(l, ch) && Lossless(ch) && ch.open && ch.link != []
    requires forall i :: ch.received <= i < |ch.sent| ==> Small(l, ch.sent[i])
    ensures var next := Receive(l, ch).0;
      && InStep(l, next) && Lossless(next) && next.open && next.link == ch.link[1..]
      && next.sent == ch.sent && next.received >= ch.received
  {
    assert Known(ch);
    SentKept(l, ch);
    ReceivedKept(l, ch);
    hide Small, Receive, InStep, Lossless;
    LosslessReceive(l, ch);
    ReceiveInStep(l, ch);
  }

  // ----- What losses do

  /** Messages whose first write failed: counted, never on the link. */
  function Lost(ch: Channel, messages: seq<string>): (r: Channel)
    ensures r == ch.(sent := ch.sent + messages)
    decreases |messages|
  {
    if messages == [] then assert ch.sent + messages == ch.sent; ch
    else
      assert ch.sent + messages == ch.sent + [messages[0]] + messages[1..];
      Lost(Send(ch, messages[0], FirstFails).0, messages[1..])
  }

  /** What the receiver holds after a message of the same stamp took the place of the next one. */
  lemma PrefixAfter(ch: Channel, next: Channel, text: string)
    requires Prefix(ch) && ch.received < |next.sent|
    requires next.sent[..ch.received] == ch.sent[..ch.received]
    requires next.received == ch.received + 1 && next.delivered == ch.delivered + [text]
    ensures Prefix(next) <==> text == CString(next.sent[ch.received])
  {
    hide CString;
    var n, wanted := ch.received, CString(next.sent[ch.received]);
    assert next.sent[..n + 1] == ch.sent[..n] + [next.sent[n]];
    assert Texts(next.sent[..n + 1]) == ch.delivered + [wanted];
    assert next.delivered[n] == text && (ch.delivered + [wanted])[n] == wanted;
  }

  /** Some message lies whole in front of the receiver, with any others behind it. */
  predicate WholeNext(l: Link, ch: Channel, i: nat) {
    && i < |ch.sent| && Small(l, ch.sent[i])
    && [Block(i, SizePart, true), Block(i, DataPart, true)] <= ch.link
  }

  /**
   The converse. In any state of any run in which the receiver is in step and finds a whole
   message next, the message is delivered exactly when the number of those missing in front
   of it is a multiple of 255, and otherwise the connection is closed. So what was delivered
   stays a prefix unless a positive multiple is missing and the first missing text is another.
   */
  lemma {:induction false} CycleExact(l: Link, ch: Channel, i: nat)
    requires InStep(l, ch) && ch.open && ch.awaiting == Size && WholeNext(l, ch, i)
    ensures i >= ch.received
    ensures var after := Received(l, ch, 2);
      && (if (i - ch.received) % STAMPS == 0 then after.open && after.delivered == ch.delivered + [CString(ch.sent[i])]
          else !after.open && after.delivered == ch.delivered)
      && (Prefix(after) <==>
            i == ch.received || (i - ch.received) % STAMPS != 0 || CString(ch.sent[i]) == CString(ch.sent[ch.received]))
  {
    assert ch.link[0] == Block(i, SizePart, true) && ch.link[1] == Block(i, DataPart, true);
    assert i >= ch.received;
    hide CString, Small, Receive, Texts, InOrder, Fits;
    StampsAgree(ch.received, i - ch.received);
    SizeTaken(l, ch);
    var first := Receive(l, ch).0;
    TwoReads(l, ch);
    if (i - ch.received) % STAMPS == 0 {
      DataTaken(l, first);
      PrefixAfter(ch, Receive(l, first).0, CString(ch.sent[i]));
    } else {
      ClosedStays(l, first);
    }
  }

  lemma TwoReads(l: Link, ch: Channel)
    requires Known(ch)
    ensures Received(l, ch, 2) == Receive(l, Receive(l, ch).0).0
  {
    hide Receive, Known;
    var next := Receive(l, ch).0;
    assert Received(l, next, 1) == Received(l, Receive(l, next).0, 0);
  }

  /**
   The same while a data block is awaited, behind a size block whose data was lost: the next
   size block is taken for the data exactly when a multiple of 255 lies between the messages
   and the lengths agree; then its four bytes are delivered as a text.
   */
  lemma {:induction false} SizeAsDataExact(l: Link, ch: Channel)
    requires InStep(l, ch) && ch.open && ch.awaiting.Data? && ch.link != [] && ch.link[0].part == SizePart && ch.link[0].whole
    ensures var i, next := ch.link[0].index, Receive(l, ch).0;
      var text := Bytes4(l.width(1 + |CString(ch.sent[i])|));
      && i > ch.received
      && (if (i - ch.received) % STAMPS == 0 && ch.awaiting.n == HeadLength(l) then next.open && next.delivered == ch.delivered + [text]
          else !next.open && next.delivered == ch.delivered)
      && (Prefix(next) <==>
            (i - ch.received) % STAMPS != 0 || ch.awaiting.n != HeadLength(l) || text == CString(ch.sent[ch.received]))
  {
    hide Bytes4, CString, Texts, InOrder;
    var i, next := ch.link[0].index, Receive(l, ch).0;
    StampsAgree(ch.received, i - ch.received);
    if next.open {
      PrefixAfter(ch, next, Bytes4(l.width(1 + |CString(ch.sent[i])|)));
    }
  }

  /** Losses in front of a message: a settled channel loses some messages and then carries one. */
  lemma {:induction false} LossesExact(l: Link, ch: Channel, lost: seq<string>, m: string)
    requires InStep(l, ch) && Settled(ch) && Small(l, m)
    ensures var after := Received(l, Send(Lost(ch, lost), m, Sent).0, 2);
      && (if |lost| % STAMPS == 0 then after.open && after.delivered == ch.delivered + [CString(m)]
          else !after.open && after.delivered == ch.delivered)
      && (Prefix(after) <==> lost == [] || |lost| % STAMPS != 0 || CString(m) == CString(lost[0]))
  {
    hide CString, Small, Receive, Received, Texts;
    var before := Send(Lost(ch, lost), m, Sent).0;
    var n, i := ch.received, |ch.sent| + |lost|;
    assert before.sent == ch.sent + lost + [m] && before.sent[i] == m;
    assert before.sent[n] == if lost == [] then m else lost[0];
    assert before.sent[..n] == ch.sent[..n];
    assert before.link == [Block(i, SizePart, true), Block(i, DataPart, true)];
    CycleExact(l, before, i);
  }

  lemma ClosedStays(l: Link, ch: Channel)
    requires Known(ch) && !ch.open
    ensures Receive(l, ch).0 == ch
  {}

  lemma StampsAgree(n: nat, k: nat)
    ensures (n + k) % STAMPS == n % STAMPS <==> k % STAMPS == 0
  {
    var a, b, c := n / STAMPS, k / STAMPS, (n + k) / STAMPS;
    assert n == STAMPS * a + n % STAMPS && k == STAMPS * b + k % STAMPS && n + k == STAMPS * c + (n + k) % STAMPS;
  }
}
