/** The check `core::str::from_utf8` makes of a file name (src/fs.rs, `get_name`). */
module Utf8 {
  import opened Wrappers

  predicate Cont(b: byte) {
    0x80 <= b < 0xC0
  }

  /** Well-formed UTF-8, by the table of first and second bytes. */
  predicate ValidUtf8(s: seq<byte>) {
    if s == [] then true
    else if s[0] < 0x80 then ValidUtf8(s[1..])
    else if 0xC2 <= s[0] < 0xE0 then |s| >= 2 && Cont(s[1]) && ValidUtf8(s[2..])
    else if 0xE0 <= s[0] < 0xF0 then
      && |s| >= 3 && Cont(s[1]) && Cont(s[2])
      && (s[0] == 0xE0 ==> s[1] >= 0xA0) && (s[0] == 0xED ==> s[1] < 0xA0) && ValidUtf8(s[3..])
    else if 0xF0 <= s[0] < 0xF5 then
      && |s| >= 4 && Cont(s[1]) && Cont(s[2]) && Cont(s[3])
      && (s[0] == 0xF0 ==> s[1] >= 0x90) && (s[0] == 0xF4 ==> s[1] < 0x90) && ValidUtf8(s[4..])
    else false
  }

  /** The UTF-8 form of a character: 7, 11, 16 or 21 bits of its code point in one to four bytes. */
  function Utf8Char(c: char): seq<byte> {
    var x := c as int;
    if x < 0x80 then [x]
    else if x < 0x800 then [0xC0 + x / 0x40, 0x80 + x % 0x40]
    else if x < 0x1_0000 then [0xE0 + x / 0x1000, 0x80 + x / 0x40 % 0x40, 0x80 + x % 0x40]
    else [0xF0 + x / 0x4_0000, 0x80 + x / 0x1000 % 0x40, 0x80 + x / 0x40 % 0x40, 0x80 + x % 0x40]
  }

  function EncodeText(t: string): seq<byte> {
    if t == "" then [] else Utf8Char(t[0]) + EncodeText(t[1..])
  }

  ghost predicate IsText(s: seq<byte>) {
    exists t :: EncodeText(t) == s
  }

  /** How many bytes the character at the front takes. */
  function Width(first: byte): nat {
    if first < 0x80 then 1 else if first < 0xE0 then 2 else if first < 0xF0 then 3 else 4
  }

  lemma WidthOf(c: char)
    ensures Utf8Char(c) != [] && |Utf8Char(c)| == Width(Utf8Char(c)[0])
  {
  }

  lemma CharIsValid(c: char, rest: seq<byte>)
    ensures ValidUtf8(Utf8Char(c) + rest) <==> ValidUtf8(rest)
  {
    var s := Utf8Char(c) + rest;
    WidthOf(c);
    assert s[0] == Utf8Char(c)[0];
    assert s[Width(s[0])..] == rest;
  }

  lemma TwoBytes(b0: int, b1: int) returns (c: char)
    requires 0xC2 <= b0 < 0xE0 && 0x80 <= b1 < 0xC0
    ensures Utf8Char(c) == [b0, b1]
  {
    var x := (b0 - 0xC0) * 0x40 + (b1 - 0x80);
    assert x / 0x40 == b0 - 0xC0 && x % 0x40 == b1 - 0x80;
    c := x as char;
  }

  lemma ThreeBytes(b0: int, b1: int, b2: int) returns (c: char)
    requires 0xE0 <= b0 < 0xF0 && 0x80 <= b1 < 0xC0 && 0x80 <= b2 < 0xC0
    requires (b0 == 0xE0 ==> b1 >= 0xA0) && (b0 == 0xED ==> b1 < 0xA0)
    ensures Utf8Char(c) == [b0, b1, b2]
  {
    var x := (b0 - 0xE0) * 0x1000 + (b1 - 0x80) * 0x40 + (b2 - 0x80);
    assert x / 0x1000 == b0 - 0xE0;
    assert x / 0x40 == (b0 - 0xE0) * 0x40 + (b1 - 0x80) && x % 0x40 == b2 - 0x80;
    c := x as char;
  }

  lemma FourBytes(b0: int, b1: int, b2: int, b3: int) returns (c: char)
    requires 0xF0 <= b0 < 0xF5 && 0x80 <= b1 < 0xC0 && 0x80 <= b2 < 0xC0 && 0x80 <= b3 < 0xC0
    requires (b0 == 0xF0 ==> b1 >= 0x90) && (b0 == 0xF4 ==> b1 < 0x90)
    ensures Utf8Char(c) == [b0, b1, b2, b3]
  {
    var x := (b0 - 0xF0) * 0x4_0000 + (b1 - 0x80) * 0x1000 + (b2 - 0x80) * 0x40 + (b3 - 0x80);
    assert x / 0x4_0000 == b0 - 0xF0;
    assert x / 0x1000 == (b0 - 0xF0) * 0x40 + (b1 - 0x80);
    assert x / 0x40 == (b0 - 0xF0) * 0x1000 + (b1 - 0x80) * 0x40 + (b2 - 0x80) && x % 0x40 == b3 - 0x80;
    c := x as char;
  }

  /** The character the bytes at the front stand for. */
  lemma FrontChar(s: seq<byte>) returns (c: char)
    requires s != [] && ValidUtf8(s)
    ensures Utf8Char(c) <= s && ValidUtf8(s[|Utf8Char(c)|..])
  {
    if s[0] < 0x80 {
      c := s[0] as char;
    } else {
      hide Utf8Char;
      if s[0] < 0xE0 {
        c := TwoBytes(s[0], s[1]);
      } else if s[0] < 0xF0 {
        c := ThreeBytes(s[0], s[1], s[2]);
      } else {
        c := FourBytes(s[0], s[1], s[2], s[3]);
      }
    }
  }

  /** The check accepts exactly the byte strings that are the UTF-8 form of some text. */
  lemma Utf8Iff(s: seq<byte>)
    ensures ValidUtf8(s) <==> IsText(s)
  {
    if ValidUtf8(s) {
      var t := TextOf(s);
      assert EncodeText(t) == s;
    }
    if t :| EncodeText(t) == s {
      TextIsValid(t);
    }
  }

  lemma {:induction false} TextIsValid(t: string)
    ensures ValidUtf8(EncodeText(t))
    decreases |t|
  {
    if t != "" {
      TextIsValid(t[1..]);
      CharIsValid(t[0], EncodeText(t[1..]));
    }
  }

  lemma {:induction false} TextOf(s: seq<byte>) returns (t: string)
    requires ValidUtf8(s)
    ensures EncodeText(t) == s
    decreases |s|
  {
    if s == [] {
      t := "";
    } else {
      var c := FrontChar(s);
      WidthOf(c);
      var rest := TextOf(s[|Utf8Char(c)|..]);
      t := [c] + rest;
      assert t[1..] == rest;
    }
  }
}
