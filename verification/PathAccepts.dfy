// Exactly which requests NormalizePath accepts, told without its own guards:
// what percent-decoding reads, what UTF-8 is, and what the decoded text must be.
module PathAccepts {
  import opened Wrappers
  import opened Text
  import opened MountPath

  // ---- Percent-encoding (section 2.1 of RFC 3986) ----

  // How one byte is written: as it is, or escaped with digits of either case.
  datatype Spelling = Literal | Escape(highUpper: bool, lowUpper: bool)

  ghost predicate Spells(s: string, how: seq<Spelling>) {
    && |how| == |s|
    && forall i :: 0 <= i < |s| ==> if how[i].Literal? then s[i] != '%' else s[i] as nat < 256
  }

  function SpelledByte(c: char, how: Spelling): string
    requires how.Escape? ==> c as nat < 256
  {
    if how.Literal? then [c] else ['%', Digit(c as nat / 16, how.highUpper), Digit(c as nat % 16, how.lowUpper)]
  }

  ghost function Spelled(s: string, how: seq<Spelling>): string
    requires Spells(s, how)
  {
    if s == "" then "" else SpelledByte(s[0], how[0]) + Spelled(s[1..], how[1..])
  }

  // Every text is read back from every way of writing it.
  lemma {:induction false} SpellingIsRead(s: string, how: seq<Spelling>)
    requires Spells(s, how)
    ensures Unescape(Spelled(s, how)) == Some(s)
  {
    hide HexNibble;
    if s != "" {
      var raw, c := Spelled(s, how), s[0] as nat;
      SpellingIsRead(s[1..], how[1..]);
      assert [s[0]] + s[1..] == s;
      if how[0].Literal? {
        assert raw[1..] == Spelled(s[1..], how[1..]);
      } else {
        NibblesAreDigits(Digit(c / 16, how[0].highUpper), c / 16);
        NibblesAreDigits(Digit(c % 16, how[0].lowUpper), c % 16);
        assert raw[3..] == Spelled(s[1..], how[1..]);
        assert EscapeAt(raw, 0) == Some(s[0]);
      }
    }
  }

  // Whatever is read was written in one of these ways.
  lemma {:induction false} ReadIsSpelling(raw: string) returns (how: seq<Spelling>)
    requires Unescape(raw).Some?
    ensures Spells(Unescape(raw).value, how) && Spelled(Unescape(raw).value, how) == raw
  {
    hide HexNibble;
    if raw == "" {
      how := [];
    } else {
      var s := Unescape(raw).value;
      if raw[0] == '%' {
        var rest := ReadIsSpelling(raw[3..]);
        var high, low := HexNibble(raw[1]).value, HexNibble(raw[2]).value;
        NibblesAreDigits(raw[1], high);
        NibblesAreDigits(raw[2], low);
        assert s[0] as nat / 16 == high && s[0] as nat % 16 == low;
        how := [Escape(raw[1] == Digit(high, true), raw[2] == Digit(low, true))] + rest;
        assert s[1..] == Unescape(raw[3..]).value && how[1..] == rest;
        assert SpelledByte(s[0], how[0]) == raw[..3];
        assert raw == raw[..3] + raw[3..];
      } else {
        var rest := ReadIsSpelling(raw[1..]);
        how := [Literal] + rest;
        assert s[1..] == Unescape(raw[1..]).value && how[1..] == rest;
        assert raw == [raw[0]] + raw[1..];
      }
    }
  }

  predicate IsHex(c: char) { '0' <= c <= '9' || 'a' <= c <= 'f' || 'A' <= c <= 'F' }

  lemma EscapeIsThreeBytes(s: string)
    ensures HasEscape(s) <==> exists i: nat :: i + 2 < |s| && s[i] == '%' && IsHex(s[i + 1]) && IsHex(s[i + 2])
  {
    if HasEscape(s) {
      var i: nat :| EscapeAt(s, i).Some?;
      assert s[i] == '%' && IsHex(s[i + 1]) && IsHex(s[i + 2]);
    }
    if i: nat :| i + 2 < |s| && s[i] == '%' && IsHex(s[i + 1]) && IsHex(s[i + 2]) {
      assert EscapeAt(s, i).Some?;
    }
  }

  // ---- UTF-8 ----

  predicate Scalar(cp: nat) { cp < 0xD800 || 0xE000 <= cp <= 0x10FFFF }

  function Byte(b: nat): char
    requires b < 256
  {
    b as char
  }

  function Utf8(cp: nat): (s: string)
    requires Scalar(cp)
    ensures 1 <= |s| <= 4
  {
    if cp < 0x80 then [Byte(cp)]
    else if cp < 0x800 then [Byte(0xC0 + cp / 0x40), Byte(0x80 + cp % 0x40)]
    else if cp < 0x10000 then [Byte(0xE0 + cp / 0x1000), Byte(0x80 + cp / 0x40 % 0x40), Byte(0x80 + cp % 0x40)]
    else
      [Byte(0xF0 + cp / 0x40000), Byte(0x80 + cp / 0x1000 % 0x40),
       Byte(0x80 + cp / 0x40 % 0x40), Byte(0x80 + cp % 0x40)]
  }

  lemma RuneMeasured(cp: nat, rest: string)
    requires Scalar(cp)
    ensures RuneLength(Utf8(cp) + rest) == |Utf8(cp)|
  {
  }

  lemma RuneIsRead(cp: nat, rest: string)
    requires Scalar(cp)
    ensures ValidUtf8(Utf8(cp) + rest) <==> ValidUtf8(rest)
  {
    hide RuneLength, Utf8;
    RuneMeasured(cp, rest);
    var s := Utf8(cp) + rest;
    assert s[|Utf8(cp)|..] == rest;
  }

  // Six bits taken off the end of a number.
  lemma LastSix(high: nat, low: nat)
    requires low < 0x40
    ensures (high * 0x40 + low) / 0x40 == high && (high * 0x40 + low) % 0x40 == low
  {}

  lemma TwoBytes(s: string) returns (cp: nat)
    requires s != "" && RuneLength(s) == 2
    ensures Scalar(cp) && s[..2] == Utf8(cp)
  {
    var x, y := s[0] as nat - 0xC0, s[1] as nat - 0x80;
    LastSix(x, y);
    cp := x * 0x40 + y;
  }

  lemma ThreeBytes(s: string) returns (cp: nat)
    requires s != "" && RuneLength(s) == 3
    ensures Scalar(cp) && s[..3] == Utf8(cp)
  {
    var x, y, z := s[0] as nat - 0xE0, s[1] as nat - 0x80, s[2] as nat - 0x80;
    LastSix(x, y);
    LastSix(x * 0x40 + y, z);
    cp := (x * 0x40 + y) * 0x40 + z;
    assert cp / 0x1000 == cp / 0x40 / 0x40;
    assert 0x800 <= cp < 0x10000 && Scalar(cp);
  }

  lemma FourBytes(s: string) returns (cp: nat)
    requires s != "" && RuneLength(s) == 4
    ensures Scalar(cp) && s[..4] == Utf8(cp)
  {
    var w, x, y, z := s[0] as nat - 0xF0, s[1] as nat - 0x80, s[2] as nat - 0x80, s[3] as nat - 0x80;
    LastSix(w, x);
    LastSix(w * 0x40 + x, y);
    LastSix((w * 0x40 + x) * 0x40 + y, z);
    cp := ((w * 0x40 + x) * 0x40 + y) * 0x40 + z;
    assert cp / 0x1000 == cp / 0x40 / 0x40 && cp / 0x40000 == cp / 0x1000 / 0x40;
    assert 0x10000 <= cp <= 0x10FFFF;
  }

  lemma RuneIsWritten(s: string) returns (cp: nat)
    requires s != "" && RuneLength(s) > 0
    ensures Scalar(cp) && s == Utf8(cp) + s[RuneLength(s)..]
  {
    var n := RuneLength(s);
    if n == 1 {
      cp := s[0] as nat;
      assert s[..1] == Utf8(cp);
    } else if n == 2 {
      cp := TwoBytes(s);
    } else if n == 3 {
      cp := ThreeBytes(s);
    } else {
      cp := FourBytes(s);
    }
    assert s == s[..n] + s[n..];
  }

  ghost predicate Scalars(cps: seq<nat>) {
    forall i :: 0 <= i < |cps| ==> Scalar(cps[i])
  }

  ghost function Utf8All(cps: seq<nat>): string
    requires Scalars(cps)
  {
    if cps == [] then "" else Utf8(cps[0]) + Utf8All(cps[1..])
  }

  // Valid UTF-8 is the encoding of Unicode scalar values and nothing else.
  lemma {:induction false} EncodedIsValid(cps: seq<nat>)
    requires Scalars(cps)
    ensures ValidUtf8(Utf8All(cps))
  {
    if cps != [] {
      EncodedIsValid(cps[1..]);
      RuneIsRead(cps[0], Utf8All(cps[1..]));
    }
  }

  lemma {:induction false} ValidIsEncoded(s: string) returns (cps: seq<nat>)
    requires ValidUtf8(s)
    ensures Scalars(cps) && s == Utf8All(cps)
  {
    if s == "" {
      cps := [];
    } else {
      var cp := RuneIsWritten(s);
      var rest := ValidIsEncoded(s[RuneLength(s)..]);
      cps := [cp] + rest;
      assert cps[1..] == rest;
    }
  }

  lemma {:induction false} AsciiIsValid(s: string)
    requires forall i :: 0 <= i < |s| ==> s[i] as nat < 0x80
    ensures ValidUtf8(s)
  {
    if s != "" {
      AsciiIsValid(s[1..]);
    }
  }

  // ---- Acceptance ----

  lemma {:induction false} SeparatorsCounted(s: string)
    ensures Separators(s) == multiset(s)['/'] + multiset(s)['\\']
  {
    if s != "" {
      SeparatorsCounted(s[1..]);
      assert s == [s[0]] + s[1..];
    }
  }

  // What the decoded text of an accepted request is.
  ghost predicate Acceptable(d: string) {
    && ValidUtf8(d) && '\\' !in d
    && (forall i :: 0 <= i < |d| ==> 0x20 <= d[i] as nat && d[i] as nat != 0x7F)
    && (forall i: nat :: i + 2 < |d| && d[i] == '%' ==> !IsHex(d[i + 1]) || !IsHex(d[i + 2]))
    && "." !in Split(d, '/') && ".." !in Split(d, '/')
  }

  // A request is accepted exactly when it is absolute, decodes, writes every
  // separator of the decoded text literally, and the decoded text is acceptable.
  lemma AcceptsExactly(raw: string)
    ensures Normalize(raw).Ok? <==>
      && "/" <= raw && Unescape(raw).Some?
      && var d := Unescape(raw).value;
         Acceptable(d)
         && multiset(d)['/'] + multiset(d)['\\'] == multiset(raw)['/'] + multiset(raw)['\\']
  {
    hide Clean, Unescape, ScansSeparator, ValidUtf8, HasEscape, Split;
    if Unescape(raw).Some? {
      var d := Unescape(raw).value;
      ScannerExact(raw);
      SeparatorsCounted(raw);
      SeparatorsCounted(d);
      EscapeIsThreeBytes(d);
      ControlsSeen(d);
    }
  }

  lemma ControlsSeen(d: string)
    ensures (exists c :: c in d && IsControl(c)) <==>
      !(forall i :: 0 <= i < |d| ==> 0x20 <= d[i] as nat && d[i] as nat != 0x7F)
  {
    if i :| 0 <= i < |d| && !(0x20 <= d[i] as nat && d[i] as nat != 0x7F) {
      assert d[i] in d && IsControl(d[i]);
    }
  }

  // A rejected request gets the error of the first guard it fails.
  lemma FirstFailureNamed(raw: string)
    requires Normalize(raw).Err?
    ensures Normalize(raw).error ==
      if !("/" <= raw) then NotAbsolute
      else if ScansSeparator(raw) then EncodedSeparator
      else if Unescape(raw).None? then InvalidEscape
      else
        var d := Unescape(raw).value;
        if !ValidUtf8(d) then NotUtf8
        else if '\\' in d then Backslash
        else if !(forall i :: 0 <= i < |d| ==> 0x20 <= d[i] as nat && d[i] as nat != 0x7F) then ControlCharacter
        else if HasEscape(d) then DoubleEncoding
        else Traversal
  {
    hide Clean, Unescape, ScansSeparator, ValidUtf8, HasEscape, Split;
    if Unescape(raw).Some? {
      ControlsSeen(Unescape(raw).value);
    }
  }

  // Plain paths pass: printable ASCII without percent signs and backslashes,
  // and without dot segments.
  lemma PlainPathsPass(raw: string)
    requires "/" <= raw && "." !in Split(raw, '/') && ".." !in Split(raw, '/')
    requires forall i :: 0 <= i < |raw| ==> 0x20 <= raw[i] as nat < 0x7F && raw[i] != '%' && raw[i] != '\\'
    ensures Normalize(raw).Ok?
  {
    hide Split;
    var how := seq(|raw|, _ => Literal);
    SpelledLiterally(raw, how);
    SpellingIsRead(raw, how);
    AsciiIsValid(raw);
    AcceptsExactly(raw);
  }

  lemma {:induction false} SpelledLiterally(s: string, how: seq<Spelling>)
    requires Spells(s, how) && forall i :: 0 <= i < |how| ==> how[i].Literal?
    ensures Spelled(s, how) == s
  {
    if s != "" {
      SpelledLiterally(s[1..], how[1..]);
    }
  }
}
