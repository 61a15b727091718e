/**
 WebSocket framing: `parse_frame` and `create_frame`, against sections 5.2 and 5.3 of RFC 6455.
 Bytes are numbers below 256.
 */
module WebSocketFrame {
  type Byte = n: nat | n < 256

  function Power2(k: nat): (r: nat)
    ensures r > 0
  {
    if k == 0 then 1 else 2 * Power2(k - 1)
  }

  /** Exclusive or of the lowest `k` bits. */
  function XorBits(a: nat, b: nat, k: nat): (r: nat)
    ensures r < Power2(k)
  {
    if k == 0 then 0 else 2 * XorBits(a / 2, b / 2, k - 1) + (a + b) % 2
  }

  lemma LowestBit(a: nat, m: nat, high: nat)
    ensures var x := 2 * high + (a + m) % 2; x / 2 == high && (x + m) % 2 == a % 2
  {}

  lemma {:induction false} XorBitsBack(a: nat, m: nat, k: nat)
    requires a < Power2(k)
    ensures XorBits(XorBits(a, m, k), m, k) == a
  {
    if k > 0 {
      XorBitsBack(a / 2, m / 2, k - 1);
      LowestBit(a, m, XorBits(a / 2, m / 2, k - 1));
    }
  }

  lemma EightBits()
    ensures Power2(8) == 256
  {
    assert Power2(1) == 2 && Power2(2) == 4 && Power2(4) == 4 * Power2(2) && Power2(6) == 4 * Power2(4) && Power2(8) == 4 * Power2(6);
  }

  function Xor(a: Byte, b: Byte): (r: Byte) {
    EightBits();
    XorBits(a, b, 8)
  }

  lemma XorBack(a: Byte, m: Byte)
    ensures Xor(Xor(a, m), m) == a
  {
    EightBits();
    XorBitsBack(a, m, 8);
  }

  // ----- The program's two functions

  /** A signed byte as a 64-bit unsigned number. */
  function Extended(b: Byte): nat {
    if b < 128 then b else 0x1_0000_0000_0000_0000 - 256 + b
  }

  function Low16(low: nat, high: nat): nat {
    low + 256 * high
  }

  /** The payload length `parse_frame` reads, and where it ended; `buffer` goes on behind the `length` bytes received. */
  function ReadLength(buffer: seq<Byte>): (nat, nat)
    requires |buffer| >= 4
  {
    var n := buffer[1] % 128;
    if n == 126 then (Low16(buffer[2], buffer[3]), 4)
    else if n == 127 then (Low16(Extended(buffer[2]), Extended(buffer[3])) % 0x1_0000_0000_0000_0000, 10)
    else (n, 2)
  }

  /** Bytes from `at` on, as many as the payload claims and the packet has, unmasked. */
  function Unmask(data: seq<Byte>, at: nat, payload: nat, mask: seq<Byte>): (r: seq<Byte>)
    requires |mask| == 4
  {
    var n := if at >= |data| then 0 else if payload < |data| - at then payload else |data| - at;
    seq(n, i requires 0 <= i < n => Xor(data[at + i], mask[i % 4]))
  }

  function Parsed(buffer: seq<Byte>, length: nat): seq<Byte>
    requires 14 <= |buffer| && length <= |buffer|
  {
    var (payload, offset) := ReadLength(buffer);
    if buffer[1] >= 128 then Unmask(buffer[..length], offset + 4, payload, buffer[offset..offset + 4])
    else Unmask(buffer[..length], offset, payload, [0, 0, 0, 0])
  }

  method ParseFrame(buffer: array<Byte>, length: nat) returns (message: seq<Byte>)
    requires 14 <= buffer.Length && length <= buffer.Length
    ensures message == Parsed(buffer[..], length)
  {
    hide Xor, Extended, Low16;
    var n := buffer[1] % 128;
    var payload: nat, offset: nat;
    if n == 126 {
      payload, offset := Low16(buffer[2], buffer[3]), 4;
    } else if n == 127 {
      payload, offset := Low16(Extended(buffer[2]), Extended(buffer[3])) % 0x1_0000_0000_0000_0000, 10;
    } else {
      payload, offset := n, 2;
    }
    assert (payload, offset) == ReadLength(buffer[..]);
    var mask: seq<Byte> := [0, 0, 0, 0];
    if buffer[1] >= 128 {
      mask := buffer[offset..offset + 4];
      offset := offset + 4;
    }
    message := UnmaskLoop(buffer, length, offset, payload, mask);
    assert buffer[..][..length] == buffer[..length];
  }

  method UnmaskLoop(buffer: array<Byte>, length: nat, offset: nat, payload: nat, mask: seq<Byte>) returns (message: seq<Byte>)
    requires length <= buffer.Length && |mask| == 4
    ensures message == Unmask(buffer[..length], offset, payload, mask)
  {
    hide Xor;
    message := [];
    var i := 0;
    while i < payload && offset + i < length
      invariant i == |message| <= payload && (i > 0 ==> offset + i <= length)
      invariant forall k :: 0 <= k < i ==> message[k] == Xor(buffer[offset + k], mask[k % 4])
    {
      message := message + [Xor(buffer[offset + i], mask[i % 4])];
      i := i + 1;
    }
  }

  /** `create_frame`; past 65535 bytes no length is written. */
  function Created(data: seq<Byte>): seq<Byte> {
    if |data| <= 125 then [0x81, |data|] + data
    else if |data| <= 65535 then [0x81, 126, |data| / 256, |data| % 256] + data
    else [0x81] + data
  }

  method CreateFrame(data: seq<Byte>) returns (frame: seq<Byte>)
    ensures frame == Created(data)
  {
    frame := [0x81];
    if |data| <= 125 {
      frame := frame + [|data|];
    } else if |data| <= 65535 {
      frame := frame + [126];
      frame := frame + [|data| / 256];
      frame := frame + [|data| % 256];
    }
    frame := frame + data;
  }

  // ----- The protocol

  /** The number written in some bytes, highest first. */
  function Number(bytes: seq<Byte>): nat {
    if bytes == [] then 0 else 256 * Number(bytes[..|bytes| - 1]) + bytes[|bytes| - 1]
  }

  datatype Decoded = Text(payload: seq<Byte>) | Malformed

  /** A receiver of one unmasked text frame, written from section 5.2: the shortest length form, and nothing behind the payload. */
  function Decode(frame: seq<Byte>): Decoded {
    if |frame| < 2 || frame[0] != 0x81 || frame[1] >= 128 then Malformed
    else
      var n := frame[1];
      var offset := if n == 127 then 10 else if n == 126 then 4 else 2;
      if |frame| < offset then Malformed
      else
        var length := if n < 126 then n else Number(frame[2..offset]);
        if |frame| != offset + length || (n == 126 && length < 126) || (n == 127 && length < 65536) then Malformed
        else Text(frame[offset..])
  }

  /** What the protocol's receiver makes of a created frame: the payload, for exactly the payloads of at most 65535 bytes. */
  lemma CreatedDecodes(data: seq<Byte>)
    ensures Decode(Created(data)) == Text(data) <==> |data| <= 65535
  {
    var frame := Created(data);
    if |data| <= 125 {
      assert frame[2..] == data;
    } else if |data| <= 65535 {
      assert frame[4..] == data;
      NumberTwo(|data| / 256, |data| % 256);
      assert frame[2..4] == [|data| / 256, |data| % 256];
    } else if Decode(frame).Text? {
      assert |Decode(frame).payload| < |data|;
    }
  }

  lemma NumberTwo(a: Byte, b: Byte)
    ensures Number([a, b]) == 256 * a + b
  {
    assert [a, b][..1] == [a] && [a][..0] == [];
    assert Number([a]) == a;
  }

  /** The payload under a mask (section 5.3). */
  function Masked(payload: seq<Byte>, mask: seq<Byte>): (r: seq<Byte>)
    requires |mask| == 4
    ensures |r| == |payload|
  {
    seq(|payload|, i requires 0 <= i < |payload| => Xor(payload[i], mask[i % 4]))
  }

  /** A number as bytes, highest first. */
  function Bytes(n: nat, count: nat): (r: seq<Byte>)
    ensures |r| == count
  {
    if count == 0 then [] else Bytes(n / 256, count - 1) + [n % 256]
  }

  /** First byte, length and mask bit of a client's frame. */
  function Head(n: nat): seq<Byte> {
    if n <= 125 then [0x81, 128 + n] else if n <= 65535 then [0x81, 254] + Bytes(n, 2) else [0x81, 255] + Bytes(n, 8)
  }

  /** The frame a client sends, by section 5.2. */
  function ClientFrame(payload: seq<Byte>, mask: seq<Byte>): seq<Byte>
    requires |mask| == 4
  {
    Head(|payload|) + mask + Masked(payload, mask)
  }

  lemma BytesTwo(n: nat)
    requires n <= 65535
    ensures Bytes(n, 2) == [n / 256, n % 256]
  {
    assert Bytes(n / 256, 1) == Bytes(n / 256 / 256, 0) + [n / 256 % 256];
  }

  /** A number below 2^(8 k) written in two bytes more than k starts with two zeros. */
  lemma {:induction false} LeadingZeros(n: nat, k: nat)
    requires n < Power2(8 * k)
    ensures Bytes(n, k + 2)[0] == 0 && Bytes(n, k + 2)[1] == 0
  {
    if k == 0 {
      assert n == 0 && Bytes(0, 1) == [] + [0];
    } else {
      Eightfold(k - 1);
      LeadingZeros(n / 256, k - 1);
    }
  }

  lemma Eightfold(k: nat)
    ensures Power2(8 * (k + 1)) == 256 * Power2(8 * k)
  {
    var m := 8 * k;
    assert Power2(m + 2) == 4 * Power2(m) && Power2(m + 4) == 4 * Power2(m + 2);
    assert Power2(m + 6) == 4 * Power2(m + 4) && Power2(m + 8) == 4 * Power2(m + 6);
  }

  /** The length `parse_frame` takes from a client frame with a payload of n bytes: longer ones are read in the wrong byte order. */
  function Claimed(n: nat): nat {
    if n <= 125 then n else if n <= 65535 then n / 256 + 256 * (n % 256) else 0
  }

  lemma ShortHead(n: nat, buffer: seq<Byte>)
    requires n <= 125 && 14 <= |buffer| && buffer[1] == 128 + n
    ensures ReadLength(buffer) == (n, 2)
  {}

  lemma MediumHead(n: nat, buffer: seq<Byte>)
    requires 125 < n <= 65535 && 14 <= |buffer| && buffer[1] == 254 && buffer[2] == n / 256 && buffer[3] == n % 256
    ensures ReadLength(buffer) == (n / 256 + 256 * (n % 256), 4)
  {}

  lemma LongHead(buffer: seq<Byte>)
    requires 14 <= |buffer| && buffer[1] == 255 && buffer[2] == 0 && buffer[3] == 0
    ensures ReadLength(buffer) == (0, 10)
  {}

  /** What `parse_frame` takes from the head of a client's frame. */
  lemma HeadRead(n: nat, buffer: seq<Byte>)
    requires n < Power2(48) && 14 <= |buffer| && Head(n) <= buffer
    ensures ReadLength(buffer) == (Claimed(n), |Head(n)|) && buffer[1] >= 128
  {
    hide ReadLength, Power2, Bytes;
    var head := Head(n);
    assert forall i :: 0 <= i < |head| ==> buffer[i] == head[i];
    assert |head| > 1 && buffer[1] == head[1];
    if n <= 125 {
      ShortHead(n, buffer);
    } else if n <= 65535 {
      BytesTwo(n);
      assert head[2] == n / 256 && head[3] == n % 256;
      MediumHead(n, buffer);
    } else {
      LeadingZeros(n, 6);
      assert head[2] == 0 && head[3] == 0;
      LongHead(buffer);
    }
  }

  /** Taking the mask off again. */
  lemma UnmaskMasked(before: seq<Byte>, payload: seq<Byte>, mask: seq<Byte>, behind: seq<Byte>, claimed: nat)
    requires |mask| == 4
    ensures var message := Unmask(before + Masked(payload, mask) + behind, |before|, claimed, mask);
      && |message| == (if claimed < |payload| + |behind| then claimed else |payload| + |behind|)
      && forall i :: 0 <= i < |message| && i < |payload| ==> message[i] == payload[i]
  {
    hide Xor;
    forall i | 0 <= i < |payload| ensures Xor(Xor(payload[i], mask[i % 4]), mask[i % 4]) == payload[i] {
      XorBack(payload[i], mask[i % 4]);
    }
  }

  /**
   A client's frame, with any bytes behind it, is read back as its payload exactly when its
   length survives the byte order: always up to 125 bytes, and else when the swapped length
   is the same, or is longer and nothing follows.
   */
  lemma {:induction false} ParsedExact(payload: seq<Byte>, mask: seq<Byte>, behind: seq<Byte>, rest: seq<Byte>)
    requires |payload| < Power2(48) && |mask| == 4
    requires |ClientFrame(payload, mask) + behind + rest| >= 14
    ensures var packet := ClientFrame(payload, mask) + behind;
      Parsed(packet + rest, |packet|) == payload
      <==> Claimed(|payload|) == |payload| || (Claimed(|payload|) > |payload| && behind == [])
  {
    hide Xor, Masked, Claimed, ReadLength, Head, Power2;
    var n, head := |payload|, Head(|payload|);
    var packet := ClientFrame(payload, mask) + behind;
    var buffer := packet + rest;
    assert buffer == head + (mask + Masked(payload, mask) + behind + rest);
    HeadRead(n, buffer);
    assert buffer[|head|..|head| + 4] == mask;
    assert buffer[..|packet|] == (head + mask) + Masked(payload, mask) + behind;
    UnmaskMasked(head + mask, payload, mask, behind, Claimed(n));
    assert Parsed(buffer, |packet|) == Unmask(packet, |head| + 4, Claimed(n), mask);
  }

  lemma FortyEightBits()
    ensures 0x1_0000_0000_0000 <= Power2(48)
  {
    Eightfold(0);
    Eightfold(1);
    Eightfold(2);
    Eightfold(3);
    Eightfold(4);
    Eightfold(5);
  }

  /** Every payload of at most 125 bytes, under every mask and with anything behind it, is read back. */
  lemma {:induction false} ShortRead(payload: seq<Byte>, mask: seq<Byte>, behind: seq<Byte>, rest: seq<Byte>)
    requires |payload| <= 125 && |mask| == 4
    requires |ClientFrame(payload, mask) + behind + rest| >= 14
    ensures var packet := ClientFrame(payload, mask) + behind;
      Parsed(packet + rest, |packet|) == payload
  {
    FortyEightBits();
    ParsedExact(payload, mask, behind, rest);
  }

  /** 126 bytes swallow what follows them, and of 256 bytes only one is kept. */
  lemma SwappedLengths(payload: seq<Byte>, mask: seq<Byte>, behind: seq<Byte>, rest: seq<Byte>)
    requires |mask| == 4 && ((|payload| == 126 && behind != []) || |payload| == 256)
    ensures var packet := ClientFrame(payload, mask) + behind;
      |packet + rest| >= 14 && Parsed(packet + rest, |packet|) != payload
  {
    FortyEightBits();
    ParsedExact(payload, mask, behind, rest);
  }
}
