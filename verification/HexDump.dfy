/**
 The hexadecimal printer of the debug output. A char is signed, so the bytes from 0x80 on are printed
 as negative ints, eight digits long. The dump can still be read back.
 */
module HexDump {
  import opened Bytes

  const DIGITS: string := "0123456789ABCDEF"

  function Digit(v: nat): char
    requires v < 16
  {
    DIGITS[v]
  }

  /** A byte as a signed char, widened to int. */
  function SignedChar(b: Byte): int {
    if b < 128 then b else b - 256
  }

  /** Upper-case hexadecimal digits of a number, without leading zeros. */
  function HexNat(n: nat): (s: string)
    ensures s != ""
  {
    if n < 16 then [Digit(n)] else HexNat(n / 16) + [Digit(n % 16)]
  }

  /** How a stream prints an int in hexadecimal, with width 2 and fill '0'. */
  function HexInt(v: int): string
    requires -0x8000_0000 <= v < 0x8000_0000
  {
    var s := HexNat(if v < 0 then v + U32 else v);
    if |s| < 2 then "0" + s else s
  }

  function ToHexstring(b: Byte, withSpace: bool, withLeadingX: bool): string {
    (if withLeadingX then "0x" else "") + HexInt(SignedChar(b)) + (if withSpace then " " else "")
  }

  function Hex(bs: ByteString, withSpace: bool, withLeadingX: bool): string {
    if bs == [] then ""
    else ToHexstring(bs[0], withSpace, withLeadingX) + Hex(bs[1..], withSpace, withLeadingX)
  }

  // ---------- The shape of one byte ----------

  function TwoDigits(b: Byte): string {
    [Digit(b / 16), Digit(b % 16)]
  }

  lemma HexSmall(b: Byte)
    ensures b < 128 ==> HexInt(b) == TwoDigits(b)
  {
    if 16 <= b < 128 {
      assert HexNat(b / 16) == [Digit(b / 16)];
    }
  }

  lemma HexAllOnes()
    ensures HexNat(0xFFFFFF) == "FFFFFF"
  {
    assert HexNat(0xF) == "F";
    assert HexNat(0xFF) == "F" + "F";
    assert HexNat(0xFFF) == "FF" + "F";
    assert HexNat(0xFFFF) == "FFF" + "F";
    assert HexNat(0xFFFFF) == "FFFF" + "F";
    assert HexNat(0xFFFFFF) == "FFFFF" + "F";
  }

  /** Two digits below 0x80; from there on eight, of which the first six are F. */
  lemma ByteShape(b: Byte)
    ensures HexInt(SignedChar(b)) == (if b < 128 then TwoDigits(b) else "FFFFFF" + TwoDigits(b))
  {
    if b < 128 {
      HexSmall(b);
    } else {
      var n := b - 256 + U32;
      assert n / 16 == 0xFFFFFF0 + b / 16 && n % 16 == b % 16;
      assert (n / 16) / 16 == 0xFFFFFF && (n / 16) % 16 == b / 16;
      HexAllOnes();
      assert HexNat(n / 16) == "FFFFFF" + [Digit(b / 16)];
      assert HexNat(n) == "FFFFFF" + [Digit(b / 16)] + [Digit(b % 16)];
    }
  }

  /** The character of a digit: '0' to '9', then 'A' to 'F'. */
  lemma DigitChars(v: nat)
    requires v < 16
    ensures Digit(v) as int == if v < 10 then 0x30 + v else 0x41 + (v - 10)
  {
  }

  /** What is printed for one byte: "0x" if wanted, six Fs if the char is negative, two digits, a blank if wanted. */
  lemma ByteDump(b: Byte, withSpace: bool, withLeadingX: bool)
    ensures Hex([b], withSpace, withLeadingX)
            == (if withLeadingX then "0x" else "") + (if b < 128 then "" else "FFFFFF")
               + [Digit(b / 16), Digit(b % 16)] + (if withSpace then " " else "")
  {
    ByteShape(b);
    assert [b][1..] == [];
    hide HexInt;
  }

  lemma HexUnfold(bs: ByteString, withSpace: bool, withLeadingX: bool)
    requires bs != []
    ensures Hex(bs, withSpace, withLeadingX)
            == ToHexstring(bs[0], withSpace, withLeadingX) + Hex(bs[1..], withSpace, withLeadingX)
  {
    hide ToHexstring;
  }

  /** The bytes are printed in their order. */
  lemma {:induction false} HexAppend(xs: ByteString, ys: ByteString, withSpace: bool, withLeadingX: bool)
    ensures Hex(xs + ys, withSpace, withLeadingX)
            == Hex(xs, withSpace, withLeadingX) + Hex(ys, withSpace, withLeadingX)
  {
    hide ToHexstring;
    if xs == [] {
      assert xs + ys == ys;
    } else {
      HexAppend(xs[1..], ys, withSpace, withLeadingX);
      assert (xs + ys)[1..] == xs[1..] + ys;
      HexUnfold(xs, withSpace, withLeadingX);
      HexUnfold(xs + ys, withSpace, withLeadingX);
      hide Hex;
      Assoc(ToHexstring(xs[0], withSpace, withLeadingX), Hex(xs[1..], withSpace, withLeadingX),
            Hex(ys, withSpace, withLeadingX));
    }
  }

  // ---------- Reading a dump back ----------

  datatype Option<T> = None | Some(value: T)

  function DigitValue(c: char): (v: int)
    ensures v == -1 || (0 <= v < 16 && Digit(v) == c)
  {
    if '0' <= c <= '9' then c as int - '0' as int
    else if 'A' <= c <= 'F' then c as int - 'A' as int + 10
    else -1
  }

  lemma DigitRoundTrip(v: nat)
    requires v < 16
    ensures DigitValue(Digit(v)) == v
  {
  }

  function Strip(s: string, prefix: string, wanted: bool): (r: Option<string>)
    ensures r.Some? ==> s == (if wanted then prefix else "") + r.value
  {
    if !wanted then Some(s)
    else if |s| >= |prefix| && s[..|prefix|] == prefix then Some(s[|prefix|..])
    else None
  }

  /** The byte printed at the front of s, and what follows it. */
  function ReadDigits(s: string): (r: Option<(Byte, string)>)
    ensures r.Some? ==> |r.value.1| < |s|
  {
    var long := |s| >= 6 && s[..6] == "FFFFFF";
    var t := if long then s[6..] else s;
    if |t| < 2 || DigitValue(t[0]) < 0 || DigitValue(t[1]) < 0 || (DigitValue(t[0]) >= 8) != long then None
    else Some((DigitValue(t[0]) * 16 + DigitValue(t[1]), t[2..]))
  }

  /** The same with what the flags put around the digits. */
  function ReadByte(s: string, withSpace: bool, withLeadingX: bool): (r: Option<(Byte, string)>)
    ensures r.Some? ==> |r.value.1| < |s|
  {
    var a := Strip(s, "0x", withLeadingX);
    if a.None? then None
    else
      var d := ReadDigits(a.value);
      if d.None? then None
      else
        var rest := Strip(d.value.1, " ", withSpace);
        if rest.None? then None else Some((d.value.0, rest.value))
  }

  function Unhex(s: string, withSpace: bool, withLeadingX: bool): Option<ByteString>
    decreases |s|
  {
    if s == "" then Some([])
    else
      var d := ReadByte(s, withSpace, withLeadingX);
      if d.None? then None
      else
        var bs := Unhex(d.value.1, withSpace, withLeadingX);
        if bs.None? then None else Some([d.value.0] + bs.value)
  }

  lemma StripBack(rest: string, prefix: string, wanted: bool)
    ensures Strip((if wanted then prefix else "") + rest, prefix, wanted) == Some(rest)
  {
    if !wanted {
      Nil(rest);
    }
  }

  lemma ReadBack(b: Byte, rest: string)
    ensures ReadDigits(HexInt(SignedChar(b)) + rest) == Some((b, rest))
  {
    hide HexInt, ReadDigits;
    ByteShape(b);
    if b < 128 {
      ReadShort(b, rest);
    } else {
      ReadLong(b, rest);
    }
  }

  lemma ReadShort(b: Byte, rest: string)
    requires b < 128
    ensures ReadDigits(TwoDigits(b) + rest) == Some((b, rest))
  {
    var s := TwoDigits(b) + rest;
    DigitRoundTrip(b / 16);
    DigitRoundTrip(b % 16);
    assert s[0] == Digit(b / 16) != 'F';
    assert s[2..] == rest;
  }

  lemma ReadLong(b: Byte, rest: string)
    requires b >= 128
    ensures ReadDigits("FFFFFF" + TwoDigits(b) + rest) == Some((b, rest))
  {
    var s := "FFFFFF" + TwoDigits(b) + rest;
    DigitRoundTrip(b / 16);
    DigitRoundTrip(b % 16);
    assert s[..6] == "FFFFFF";
    assert s[6..] == TwoDigits(b) + rest;
    assert s[6..][2..] == rest;
  }

  lemma ReadByteBack(b: Byte, rest: string, withSpace: bool, withLeadingX: bool)
    ensures ReadByte(ToHexstring(b, withSpace, withLeadingX) + rest, withSpace, withLeadingX) == Some((b, rest))
    ensures ToHexstring(b, withSpace, withLeadingX) != ""
  {
    hide HexInt, Strip, ReadDigits;
    var x, d, sp := if withLeadingX then "0x" else "", HexInt(SignedChar(b)), if withSpace then " " else "";
    Assoc(x + d, sp, rest);
    Assoc(x, d, sp + rest);
    StripBack(d + (sp + rest), "0x", withLeadingX);
    ReadBack(b, sp + rest);
    StripBack(rest, " ", withSpace);
    ByteShape(b);
  }

  /** Every dump can be read back, under every setting of the two flags. */
  lemma {:induction false} UnhexHex(bs: ByteString, withSpace: bool, withLeadingX: bool)
    ensures Unhex(Hex(bs, withSpace, withLeadingX), withSpace, withLeadingX) == Some(bs)
  {
    hide ToHexstring, ReadByte;
    if bs != [] {
      UnhexHex(bs[1..], withSpace, withLeadingX);
      ReadByteBack(bs[0], Hex(bs[1..], withSpace, withLeadingX), withSpace, withLeadingX);
      assert [bs[0]] + bs[1..] == bs;
    }
  }

  lemma TwoDigitsRead(t: string)
    requires |t| >= 2 && DigitValue(t[0]) >= 0 && DigitValue(t[1]) >= 0
    ensures t == TwoDigits(DigitValue(t[0]) * 16 + DigitValue(t[1])) + t[2..]
  {
    hide DigitValue, Digit;
    TwoDigitsOf(DigitValue(t[0]), DigitValue(t[1]));
    hide TwoDigits;
    assert t == [t[0], t[1]] + t[2..];
  }

  lemma TwoDigitsOf(x: nat, y: nat)
    requires x < 16 && y < 16
    ensures TwoDigits(x * 16 + y) == [Digit(x), Digit(y)]
  {
    hide Digit;
    assert (x * 16 + y) / 16 == x && (x * 16 + y) % 16 == y;
  }

  lemma ReadDigitsSound(s: string)
    ensures var r := ReadDigits(s);
            r.Some? ==> s == HexInt(SignedChar(r.value.0)) + r.value.1
  {
    hide HexInt, TwoDigits, DigitValue, Digit;
    var r := ReadDigits(s);
    if r.Some? {
      var b := r.value.0;
      ByteShape(b);
      var long := |s| >= 6 && s[..6] == "FFFFFF";
      var t := if long then s[6..] else s;
      TwoDigitsRead(t);
      if long {
        assert s == "FFFFFF" + t;
        Assoc("FFFFFF", TwoDigits(b), t[2..]);
      }
    }
  }

  lemma ReadByteSound(s: string, withSpace: bool, withLeadingX: bool)
    ensures var r := ReadByte(s, withSpace, withLeadingX);
            r.Some? ==> s == ToHexstring(r.value.0, withSpace, withLeadingX) + r.value.1
  {
    hide HexInt, ReadDigits, Strip;
    var a := Strip(s, "0x", withLeadingX);
    if a.Some? {
      ReadDigitsSound(a.value);
      var d := ReadDigits(a.value);
      if d.Some? && Strip(d.value.1, " ", withSpace).Some? {
        var x, h := if withLeadingX then "0x" else "", HexInt(SignedChar(d.value.0));
        var sp, rest := if withSpace then " " else "", Strip(d.value.1, " ", withSpace).value;
        Assoc(h, sp, rest);
        Assoc(x, h + sp, rest);
        Assoc(x, h, sp);
      }
    }
  }

  /** And nothing else reads as a dump: the reader accepts exactly what the printer prints. */
  lemma {:induction false} HexUnhex(s: string, withSpace: bool, withLeadingX: bool)
    ensures var r := Unhex(s, withSpace, withLeadingX);
            r.Some? ==> Hex(r.value, withSpace, withLeadingX) == s
    decreases |s|
  {
    hide ToHexstring, ReadByte;
    var r, d := Unhex(s, withSpace, withLeadingX), ReadByte(s, withSpace, withLeadingX);
    if s != "" && r.Some? {
      ReadByteSound(s, withSpace, withLeadingX);
      HexUnhex(d.value.1, withSpace, withLeadingX);
      assert r.value[1..] == Unhex(d.value.1, withSpace, withLeadingX).value;
    }
  }

  /** So different byte strings have different dumps. */
  lemma HexInjective(xs: ByteString, ys: ByteString, withSpace: bool, withLeadingX: bool)
    requires Hex(xs, withSpace, withLeadingX) == Hex(ys, withSpace, withLeadingX)
    ensures xs == ys
  {
    UnhexHex(xs, withSpace, withLeadingX);
    UnhexHex(ys, withSpace, withLeadingX);
  }

  // ---------- The printers ----------

  lemma HexSnoc(bs: ByteString, b: Byte, withSpace: bool, withLeadingX: bool)
    ensures Hex(bs + [b], withSpace, withLeadingX)
            == Hex(bs, withSpace, withLeadingX) + ToHexstring(b, withSpace, withLeadingX)
  {
    hide ToHexstring;
    HexAppend(bs, [b], withSpace, withLeadingX);
    assert [b][1..] == [];
    Nil(ToHexstring(b, withSpace, withLeadingX));
  }

  method StringToHexstring(s: ByteString, withSpace: bool, withLeadingX: bool) returns (out: string)
    ensures out == Hex(s, withSpace, withLeadingX)
    ensures Unhex(out, withSpace, withLeadingX) == Some(s)
  {
    hide ToHexstring, Unhex;
    out := "";
    var i := 0;
    while i < |s|
      invariant 0 <= i <= |s| && out == Hex(s[..i], withSpace, withLeadingX)
    {
      out := out + ToHexstring(s[i], withSpace, withLeadingX);
      HexSnoc(s[..i], s[i], withSpace, withLeadingX);
      assert s[..i] + [s[i]] == s[..i + 1];
      i := i + 1;
    }
    assert s[..|s|] == s;
    UnhexHex(s, withSpace, withLeadingX);
  }

  /** A size of 0 or less prints nothing. */
  method BufferToHexstring(buf: array<Byte>, size: int, withSpace: bool, withLeadingX: bool) returns (out: string)
    requires size <= buf.Length
    ensures var n := if size < 0 then 0 else size;
            out == Hex(buf[..n], withSpace, withLeadingX) && Unhex(out, withSpace, withLeadingX) == Some(buf[..n])
  {
    out := "";
    var i := 0;
    while i < size
      invariant 0 <= i && (i <= size || i == 0) && i <= buf.Length
      invariant out == Hex(buf[..i], withSpace, withLeadingX)
    {
      out := out + ToHexstring(buf[i], withSpace, withLeadingX);
      HexSnoc(buf[..i], buf[i], withSpace, withLeadingX);
      assert buf[..i] + [buf[i]] == buf[..i + 1];
      i := i + 1;
    }
    UnhexHex(buf[..i], withSpace, withLeadingX);
  }
}
