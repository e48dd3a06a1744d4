/** The disassembly text of an instruction: its mnemonic followed by the
    operands its formatter shows, numbers in upper-case hexadecimal. */
module Formatting {
  import opened Constants
  import opened Context
  import opened Faults
  import opened Instructions

  function Pow16(w: nat): (p: nat)
    ensures p >= 1
  {
    if w == 0 then 1 else 16 * Pow16(w - 1)
  }

  predicate IsHexDigit(ch: char) {
    '0' <= ch <= '9' || 'A' <= ch <= 'F'
  }

  /** The upper-case digit of a value below 16 (`std::uppercase << std::hex`). */
  function HexDigit(d: nat): (ch: char)
    requires d < 16
    ensures IsHexDigit(ch)
  {
    if d < 10 then '0' + d as char else 'A' + (d - 10) as char
  }

  /** The value of a hexadecimal digit; any other character reads as 0. */
  function DigitValue(ch: char): (d: nat)
    ensures d < 16
  {
    if '0' <= ch <= '9' then (ch - '0') as nat
    else if 'A' <= ch <= 'F' then (ch - 'A') as nat + 10
    else 0
  }

  /** `v` in exactly `w` upper-case hex digits, zero-padded on the left
      (`std::setfill('0') << std::setw(w)`; a width of 1 is plain `std::hex`
      for a value below 16). */
  function Hex(v: nat, w: nat): (s: string)
    requires v < Pow16(w)
    ensures |s| == w
  {
    if w == 0 then "" else Hex(v / 16, w - 1) + [HexDigit(v % 16)]
  }

  /** Reads a string of hex digits, most significant first. */
  function ReadHex(s: string): (v: nat)
    ensures v < Pow16(|s|)
  {
    if s == [] then 0 else ReadHex(s[..|s| - 1]) * 16 + DigitValue(s[|s| - 1])
  }

  lemma DigitRoundTrip(d: nat)
    requires d < 16
    ensures DigitValue(HexDigit(d)) == d
  {
  }

  /** Reading back a rendered number gives the number. */
  lemma {:induction false} ReadHexOfHex(v: nat, w: nat)
    requires v < Pow16(w)
    ensures ReadHex(Hex(v, w)) == v
  {
    if w > 0 {
      var s := Hex(v, w);
      assert s[..|s| - 1] == Hex(v / 16, w - 1);
      ReadHexOfHex(v / 16, w - 1);
      DigitRoundTrip(v % 16);
    }
  }

  /** The ToString formatters, as selected by the table's Format column. */
  function Render(name: string, f: Format, opcode: word): (r: Result<string>)
    ensures r.Failure? <==> f == NameN
    ensures r.Failure? ==> r.error == NotImplemented
  {
    var x := OpX(opcode);
    var y := OpY(opcode);
    match f
    case Name             => Success(name)
    case NameNnn          => Success(name + " " + Hex(OpNNN(opcode), 3))
    case NameVxKk         => Success(name + " V" + Hex(x, 1) + ", " + Hex(OpKK(opcode), 2))
    case NameVxVy         => Success(name + " V" + Hex(x, 1) + ", V" + Hex(y, 1))
    case NameVx           => Success(name + " V" + Hex(x, 1))
    case NameDstNnn(dst)  => Success(name + " " + dst + ", " + Hex(OpNNN(opcode), 3))
    case NameVxVyN        => Success(name + " V" + Hex(x, 1) + ", V" + Hex(y, 1) + ", " + Hex(OpN(opcode), 1))
    case NameVxSrc(src)   => Success(name + " V" + Hex(x, 1) + ", " + src)
    case NameDstVx(dst)   => Success(name + " " + dst + ", V" + Hex(x, 1))
    case NameN            => Failure(NotImplemented)
  }

  /** `SInstruction::ToString` for a decoded entry. */
  function ToString(op: Op, opcode: word): (r: Result<string>)
    ensures r.Failure? <==> op == ScdN
  {
    Render(Mnemonic(op), FormatOf(op), opcode)
  }

  /** The opcode fields a format shows, in the order shown. */
  function Shown(f: Format, opcode: word): seq<nat> {
    match f
    case Name             => []
    case NameNnn          => [OpNNN(opcode)]
    case NameVxKk         => [OpX(opcode), OpKK(opcode)]
    case NameVxVy         => [OpX(opcode), OpY(opcode)]
    case NameVx           => [OpX(opcode)]
    case NameDstNnn(_)    => [OpNNN(opcode)]
    case NameVxVyN        => [OpX(opcode), OpY(opcode), OpN(opcode)]
    case NameVxSrc(_)     => [OpX(opcode)]
    case NameDstVx(_)     => [OpX(opcode)]
    case NameN            => [OpN(opcode)]
  }

  // Every field a format shows can be read back from the text at a fixed
  // offset after the name; one lemma per format.

  lemma ReadsBackNnn(name: string, opcode: word)
    ensures var r, n := Render(name, NameNnn, opcode).value, |name|;
      |r| == n + 4 && ReadHex(r[n + 1..n + 4]) == OpNNN(opcode)
  {
    var h := Hex(OpNNN(opcode), 3);
    assert (name + " " + h)[|name| + 1..|name| + 4] == h;
    ReadHexOfHex(OpNNN(opcode), 3);
  }

  lemma ReadsBackVxKk(name: string, opcode: word)
    ensures var r, n := Render(name, NameVxKk, opcode).value, |name|;
      && |r| == n + 7 && ReadHex(r[n + 2..n + 3]) == OpX(opcode)
      && ReadHex(r[n + 5..n + 7]) == OpKK(opcode)
  {
    TwoFields(name + " V", OpX(opcode), 1, ", ", OpKK(opcode), 2);
    ReadHexOfHex(OpX(opcode), 1);
    ReadHexOfHex(OpKK(opcode), 2);
  }

  lemma ReadsBackVxVy(name: string, opcode: word)
    ensures var r, n := Render(name, NameVxVy, opcode).value, |name|;
      && |r| == n + 7 && ReadHex(r[n + 2..n + 3]) == OpX(opcode)
      && ReadHex(r[n + 6..n + 7]) == OpY(opcode)
  {
    TwoFields(name + " V", OpX(opcode), 1, ", V", OpY(opcode), 1);
    ReadHexOfHex(OpX(opcode), 1);
    ReadHexOfHex(OpY(opcode), 1);
  }

  lemma ReadsBackVx(name: string, opcode: word)
    ensures var r, n := Render(name, NameVx, opcode).value, |name|;
      |r| == n + 3 && ReadHex(r[n + 2..n + 3]) == OpX(opcode)
  {
    var h := Hex(OpX(opcode), 1);
    assert (name + " V" + h)[|name| + 2..|name| + 3] == h;
    ReadHexOfHex(OpX(opcode), 1);
  }

  lemma ReadsBackDstNnn(name: string, dst: string, opcode: word)
    ensures var r, n := Render(name, NameDstNnn(dst), opcode).value, |name|;
      && |r| == n + |dst| + 6 && r[n + 1..n + 1 + |dst|] == dst
      && ReadHex(r[n + |dst| + 3..n + |dst| + 6]) == OpNNN(opcode)
  {
    TextThenField(name + " ", dst, ", ", OpNNN(opcode), 3);
    ReadHexOfHex(OpNNN(opcode), 3);
  }

  lemma ReadsBackVxVyN(name: string, opcode: word)
    ensures var r, n := Render(name, NameVxVyN, opcode).value, |name|;
      && |r| == n + 10 && ReadHex(r[n + 2..n + 3]) == OpX(opcode)
      && ReadHex(r[n + 6..n + 7]) == OpY(opcode)
      && ReadHex(r[n + 9..n + 10]) == OpN(opcode)
  {
    var x, y, k := OpX(opcode), OpY(opcode), OpN(opcode);
    ThreeFields(name + " V", x, ", V", y, ", ", k);
    var pre := name + " V" + Hex(x, 1) + ", V" + Hex(y, 1) + ", ";
    assert (pre + Hex(k, 1))[|pre|..|pre| + 1] == Hex(k, 1);
    ReadHexOfHex(x, 1);
    ReadHexOfHex(y, 1);
    ReadHexOfHex(k, 1);
  }

  lemma ReadsBackVxSrc(name: string, src: string, opcode: word)
    ensures var r, n := Render(name, NameVxSrc(src), opcode).value, |name|;
      && |r| == n + 5 + |src| && ReadHex(r[n + 2..n + 3]) == OpX(opcode)
      && r[n + 5..] == src
  {
    FieldThenText(name + " V", OpX(opcode), ", ", src);
    ReadHexOfHex(OpX(opcode), 1);
  }

  lemma ReadsBackDstVx(name: string, dst: string, opcode: word)
    ensures var r, n := Render(name, NameDstVx(dst), opcode).value, |name|;
      && |r| == n + |dst| + 5 && r[n + 1..n + 1 + |dst|] == dst
      && ReadHex(r[n + |dst| + 4..n + |dst| + 5]) == OpX(opcode)
  {
    TextThenField(name + " ", dst, ", V", OpX(opcode), 1);
    ReadHexOfHex(OpX(opcode), 1);
  }

  lemma TwoFields(pre: string, a: nat, wa: nat, sep: string, b: nat, wb: nat)
    requires a < Pow16(wa) && b < Pow16(wb)
    ensures var r := pre + Hex(a, wa) + sep + Hex(b, wb);
      && r[|pre|..|pre| + wa] == Hex(a, wa)
      && r[|pre| + wa + |sep|..|pre| + wa + |sep| + wb] == Hex(b, wb)
  {
    var r := pre + Hex(a, wa) + sep + Hex(b, wb);
    assert r == pre + Hex(a, wa) + (sep + Hex(b, wb));
    Middle(pre, Hex(a, wa), sep + Hex(b, wb));
  }

  lemma ThreeFields(pre: string, a: nat, sep1: string, b: nat, sep2: string, n: nat)
    requires a < 16 && b < 16 && n < 16
    ensures var r := pre + Hex(a, 1) + sep1 + Hex(b, 1) + sep2 + Hex(n, 1);
      && r[|pre|..|pre| + 1] == Hex(a, 1)
      && r[|pre| + 1 + |sep1|..|pre| + 2 + |sep1|] == Hex(b, 1)
  {
    var r := pre + Hex(a, 1) + sep1 + Hex(b, 1) + sep2 + Hex(n, 1);
    assert r == pre + Hex(a, 1) + (sep1 + Hex(b, 1) + sep2 + Hex(n, 1));
    Middle(pre, Hex(a, 1), sep1 + Hex(b, 1) + sep2 + Hex(n, 1));
    assert r == pre + Hex(a, 1) + sep1 + Hex(b, 1) + (sep2 + Hex(n, 1));
    Middle(pre + Hex(a, 1) + sep1, Hex(b, 1), sep2 + Hex(n, 1));
  }

  lemma TextThenField(pre: string, t: string, sep: string, v: nat, w: nat)
    requires v < Pow16(w)
    ensures var r := pre + t + sep + Hex(v, w);
      && r[|pre|..|pre| + |t|] == t
      && r[|pre| + |t| + |sep|..|pre| + |t| + |sep| + w] == Hex(v, w)
  {
    var r := pre + t + sep + Hex(v, w);
    assert r == pre + t + (sep + Hex(v, w));
    Middle(pre, t, sep + Hex(v, w));
  }

  lemma FieldThenText(pre: string, v: nat, sep: string, t: string)
    requires v < 16
    ensures var r := pre + Hex(v, 1) + sep + t;
      && r[|pre|..|pre| + 1] == Hex(v, 1)
      && r[|pre| + 1 + |sep|..] == t
  {
    var r := pre + Hex(v, 1) + sep + t;
    assert r == pre + Hex(v, 1) + (sep + t);
    Middle(pre, Hex(v, 1), sep + t);
  }

  /** The middle piece of a three-piece concatenation. */
  lemma Middle(a: string, b: string, c: string)
    ensures (a + b + c)[|a|..|a| + |b|] == b
  {
    assert (a + b + c)[|a|..|a| + |b|] == (a + b)[|a|..];
  }

  /** Two opcodes of the same entry print the same text exactly when the
      fields the format shows agree: the text loses only the fields the
      format leaves out. */
  lemma RenderInjective(name: string, f: Format, o1: word, o2: word)
    requires f != NameN
    ensures Render(name, f, o1) == Render(name, f, o2) <==> Shown(f, o1) == Shown(f, o2)
  {
    match f
    case Name =>
    case NameNnn => ReadsBackNnn(name, o1); ReadsBackNnn(name, o2);
    case NameVxKk => ReadsBackVxKk(name, o1); ReadsBackVxKk(name, o2);
    case NameVxVy => ReadsBackVxVy(name, o1); ReadsBackVxVy(name, o2);
    case NameVx => ReadsBackVx(name, o1); ReadsBackVx(name, o2);
    case NameDstNnn(dst) => ReadsBackDstNnn(name, dst, o1); ReadsBackDstNnn(name, dst, o2);
    case NameVxVyN => ReadsBackVxVyN(name, o1); ReadsBackVxVyN(name, o2);
    case NameVxSrc(src) => ReadsBackVxSrc(name, src, o1); ReadsBackVxSrc(name, src, o2);
    case NameDstVx(dst) => ReadsBackDstVx(name, dst, o1); ReadsBackDstVx(name, dst, o2);
  }

  /** The formatter examples of the instruction tests, with name "A". */
  lemma RenderExamples()
    ensures Render("A", Name, 0) == Success("A")
    ensures Render("A", NameNnn, 0x0012) == Success("A 012")
    ensures Render("A", NameVxKk, 0x0123) == Success("A V1, 23")
    ensures Render("A", NameVxVy, 0x0120) == Success("A V1, V2")
    ensures Render("A", NameVx, 0x0100) == Success("A V1")
    ensures Render("A", NameDstNnn("D"), 0x0012) == Success("A D, 012")
    ensures Render("A", NameVxVyN, 0x0123) == Success("A V1, V2, 3")
    ensures Render("A", NameVxSrc("S"), 0x0100) == Success("A V1, S")
    ensures Render("A", NameDstVx("D"), 0x0100) == Success("A D, V1")
  {
    ExampleNnn();
    ExampleVxKk();
    ExampleVxVy();
    ExampleVx();
    ExampleDstNnn();
    ExampleVxVyN();
    ExampleVxSrc();
    ExampleDstVx();
  }

  lemma ExampleNnn()
    ensures Render("A", NameNnn, 0x0012) == Success("A 012")
  {
    assert Hex(0x12, 3) == "012";
    assert "A" + " " + "012" == "A 012";
  }

  lemma ExampleVxKk()
    ensures Render("A", NameVxKk, 0x0123) == Success("A V1, 23")
  {
    assert Hex(1, 1) == "1";
    assert Hex(0x23, 2) == "23";
    assert "A" + " V" + "1" + ", " + "23" == "A V1, 23";
  }

  lemma ExampleVxVy()
    ensures Render("A", NameVxVy, 0x0120) == Success("A V1, V2")
  {
    assert Hex(1, 1) == "1";
    assert Hex(2, 1) == "2";
    assert "A" + " V" + "1" + ", V" + "2" == "A V1, V2";
  }

  lemma ExampleVx()
    ensures Render("A", NameVx, 0x0100) == Success("A V1")
  {
    assert Hex(1, 1) == "1";
    assert "A" + " V" + "1" == "A V1";
  }

  lemma ExampleDstNnn()
    ensures Render("A", NameDstNnn("D"), 0x0012) == Success("A D, 012")
  {
    assert Hex(0x12, 3) == "012";
    assert "A" + " " + "D" + ", " + "012" == "A D, 012";
  }

  lemma ExampleVxVyN()
    ensures Render("A", NameVxVyN, 0x0123) == Success("A V1, V2, 3")
  {
    assert Hex(1, 1) == "1";
    assert Hex(2, 1) == "2";
    assert Hex(3, 1) == "3";
    assert "A" + " V" + "1" + ", V" + "2" + ", " + "3" == "A V1, V2, 3";
  }

  lemma ExampleVxSrc()
    ensures Render("A", NameVxSrc("S"), 0x0100) == Success("A V1, S")
  {
    assert Hex(1, 1) == "1";
    assert "A" + " V" + "1" + ", " + "S" == "A V1, S";
  }

  lemma ExampleDstVx()
    ensures Render("A", NameDstVx("D"), 0x0100) == Success("A D, V1")
  {
    assert Hex(1, 1) == "1";
    assert "A" + " " + "D" + ", V" + "1" == "A D, V1";
  }

  /** Whole-instruction texts: the table's formatter and name together;
      SCD has no text. */
  lemma ToStringExamples()
    ensures ToString(JpAddr, 0x1ABC) == Success("JP ABC")
    ensures ToString(DrwVxVyN, 0xD12F) == Success("DRW V1, V2, F")
    ensures ToString(LdMemVx, 0xFA55) == Success("LD [I], VA")
    ensures ToString(JpV0Addr, 0xB00F) == Success("JP V0, 00F")
    ensures ToString(ScdN, 0x00C4) == Failure(NotImplemented)
  {
    ExampleJp();
    ExampleDrw();
    ExampleStore();
    ExampleJpOffset();
  }

  lemma ExampleJp()
    ensures ToString(JpAddr, 0x1ABC) == Success("JP ABC")
  {
    assert Mnemonic(JpAddr) == "JP" && FormatOf(JpAddr) == NameNnn;
    RenderJp();
  }

  lemma RenderJp()
    ensures Render("JP", NameNnn, 0x1ABC) == Success("JP ABC")
  {
    assert Hex(0xABC, 3) == "ABC";
    assert "JP" + " " + "ABC" == "JP ABC";
  }

  lemma ExampleDrw()
    ensures ToString(DrwVxVyN, 0xD12F) == Success("DRW V1, V2, F")
  {
    assert Mnemonic(DrwVxVyN) == "DRW" && FormatOf(DrwVxVyN) == NameVxVyN;
    RenderDrw();
  }

  lemma RenderDrw()
    ensures Render("DRW", NameVxVyN, 0xD12F) == Success("DRW V1, V2, F")
  {
    assert Hex(1, 1) == "1" && Hex(2, 1) == "2" && Hex(0xF, 1) == "F";
    assert "DRW" + " V" + "1" + ", V" + "2" + ", " + "F" == "DRW V1, V2, F";
  }

  lemma ExampleStore()
    ensures ToString(LdMemVx, 0xFA55) == Success("LD [I], VA")
  {
    assert Mnemonic(LdMemVx) == "LD" && FormatOf(LdMemVx) == NameDstVx("[I]");
    RenderStore();
  }

  lemma RenderStore()
    ensures Render("LD", NameDstVx("[I]"), 0xFA55) == Success("LD [I], VA")
  {
    assert Hex(0xA, 1) == "A";
    assert "LD" + " " + "[I]" + ", V" + "A" == "LD [I], VA";
  }

  lemma ExampleJpOffset()
    ensures ToString(JpV0Addr, 0xB00F) == Success("JP V0, 00F")
  {
    assert Mnemonic(JpV0Addr) == "JP" && FormatOf(JpV0Addr) == NameDstNnn("V0");
    RenderJpOffset();
  }

  lemma RenderJpOffset()
    ensures Render("JP", NameDstNnn("V0"), 0xB00F) == Success("JP V0, 00F")
  {
    assert Hex(0xF, 3) == "00F";
    assert "JP" + " " + "V0" + ", " + "00F" == "JP V0, 00F";
  }
}
