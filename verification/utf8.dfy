/**
 * Rust strings are UTF-8: `String::as_bytes` (src/comm_async/mod.rs, line 59)
 * is the UTF-8 encoding of the string's characters (RFC 3629, section 3).
 */
module Utf8 {
  import opened LineFramer

  newtype byte = b: int | 0 <= b < 256

  /** The line-feed byte, the encoding of '\n'. */
  const LF: byte := 0x0A

  /**
   * The UTF-8 bytes of one character: an ASCII character is its own single
   * byte, every byte of a longer encoding has its high bit set.
   */
  function EncodeChar(c: char): (r: seq<byte>)
    ensures 1 <= |r| <= 4
    ensures c as int < 0x80 ==> r == [c as int as byte]
    ensures c as int >= 0x80 ==> forall i :: 0 <= i < |r| ==> r[i] >= 0x80
  {
    var n := c as int;
    if n < 0x80 then
      [n as byte]
    else if n < 0x800 then
      [(0xC0 + n / 0x40) as byte, (0x80 + n % 0x40) as byte]
    else if n < 0x1_0000 then
      [(0xE0 + n / 0x1000) as byte, (0x80 + (n / 0x40) % 0x40) as byte, (0x80 + n % 0x40) as byte]
    else
      [(0xF0 + n / 0x4_0000) as byte, (0x80 + (n / 0x1000) % 0x40) as byte,
       (0x80 + (n / 0x40) % 0x40) as byte, (0x80 + n % 0x40) as byte]
  }

  /**
   * `String::as_bytes`: the characters' encodings laid end to end, one to
   * four bytes per character, one byte each when all are ASCII.
   */
  function Encode(s: string): (r: seq<byte>)
    ensures |s| <= |r| <= 4 * |s|
    ensures (forall i :: 0 <= i < |s| ==> s[i] as int < 0x80) ==> |r| == |s|
  {
    if s == [] then [] else EncodeChar(s[0]) + Encode(s[1..])
  }

  /** Encoding distributes over concatenation. */
  lemma {:induction false} EncodeAppend(a: string, b: string)
    ensures Encode(a + b) == Encode(a) + Encode(b)
    decreases |a|
  {
    if a == [] {
      assert a + b == b;
    } else {
      assert (a + b)[1..] == a[1..] + b;
      EncodeAppend(a[1..], b);
    }
  }

  /**
   * The encoding holds one LF byte per '\n' character and no other: encoding
   * neither adds nor removes a line terminator.
   */
  lemma {:induction false} EncodeKeepsNewlines(s: string)
    ensures multiset(Encode(s))[LF] == multiset(s)['\n']
    decreases |s|
  {
    if s != [] {
      EncodeKeepsNewlines(s[1..]);
      var e := EncodeChar(s[0]);
      assert s == [s[0]] + s[1..];
      assert multiset(e)[LF] == if s[0] == '\n' then 1 else 0 by {
        if s[0] as int >= 0x80 {
          assert LF !in e;
        }
      }
    }
  }

  /** The bytes of several messages written one after another. */
  function EncodeAll(msgs: seq<string>): seq<byte> {
    if msgs == [] then [] else EncodeAll(msgs[..|msgs| - 1]) + Encode(msgs[|msgs| - 1])
  }

  /**
   * Writing several messages one after another puts on the wire the encoding
   * of their text put together: no message boundary adds or drops a byte.
   */
  lemma {:induction false} EncodeAllIsEncodeConcat(msgs: seq<string>)
    ensures EncodeAll(msgs) == Encode(Concat(msgs))
    decreases |msgs|
  {
    if msgs != [] {
      var init, last := msgs[..|msgs| - 1], msgs[|msgs| - 1];
      assert msgs == init + [last];
      EncodeAllIsEncodeConcat(init);
      ConcatSnoc(init, last);
      EncodeAppend(Concat(init), last);
    }
  }

  /** Writing one more message appends its bytes. */
  lemma EncodeAllSnoc(msgs: seq<string>, msg: string)
    ensures EncodeAll(msgs + [msg]) == EncodeAll(msgs) + Encode(msg)
  {
    assert (msgs + [msg])[..|msgs|] == msgs;
  }

  /** The bytes of two batches of messages are the bytes of the first batch, then of the second. */
  lemma EncodeAllAppend(a: seq<string>, b: seq<string>)
    ensures EncodeAll(a + b) == EncodeAll(a) + EncodeAll(b)
  {
    EncodeAllIsEncodeConcat(a + b);
    EncodeAllIsEncodeConcat(a);
    EncodeAllIsEncodeConcat(b);
    ConcatAppend(a, b);
    EncodeAppend(Concat(a), Concat(b));
  }
}
