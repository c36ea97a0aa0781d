// Decimal numbers and surrounding white space, as strconv and strings read them.
module Decimal {
  import opened Wrappers
  import opened Text

  predicate IsDigit(c: char) { '0' <= c <= '9' }

  predicate AllDigits(s: string) { forall c :: c in s ==> IsDigit(c) }

  function DigitsValue(s: string): nat
    requires AllDigits(s)
  {
    if s == [] then 0
    else
      assert s[|s| - 1] in s;
      10 * DigitsValue(s[..|s| - 1]) + (s[|s| - 1] as nat - '0' as nat)
  }

  // strconv.ParseUint in base 10 for values up to max.
  function ParseUint(s: string, max: nat): (r: Option<nat>)
    ensures r.Some? ==> r.value <= max
  {
    if s != [] && AllDigits(s) && DigitsValue(s) <= max then Some(DigitsValue(s)) else None
  }

  const MAX_INT: nat := 0x7FFF_FFFF_FFFF_FFFF

  // strconv.Atoi on 64-bit integers: an optional sign, then digits.
  function Atoi(s: string): Option<int> {
    if s == [] then None
    else if s[0] == '-' then Signed(-1, ParseUint(s[1..], MAX_INT + 1))
    else if s[0] == '+' then Signed(1, ParseUint(s[1..], MAX_INT))
    else Signed(1, ParseUint(s, MAX_INT))
  }

  function Signed(sign: int, n: Option<nat>): Option<int> {
    if n.None? then None
    else
      var i: int := sign * n.value;
      Some(i)
  }

  // A decimal port number.
  function ParsePort(value: string): (r: Option<nat>)
    ensures r.Some? ==> 1 <= r.value <= 65535
  {
    match Atoi(value)
    case None => None
    case Some(port) => if port < 1 || port > 65535 then None else Some(port as nat)
  }

  function Print(n: nat): (s: string)
    ensures s != []
  {
    var last := ['0' + (n % 10) as char];
    if n < 10 then last else Print(n / 10) + last
  }

  // Reading back what was printed, with any number of zeros in front.
  lemma {:induction false} PrintReadsBack(n: nat)
    ensures AllDigits(Print(n)) && DigitsValue(Print(n)) == n
  {
    var s := Print(n);
    assert s[|s| - 1] == '0' + (n % 10) as char;
    if n < 10 {
      assert s[..|s| - 1] == [];
    } else {
      assert s[..|s| - 1] == Print(n / 10);
      PrintReadsBack(n / 10);
    }
  }

  lemma {:induction false} PrintIsCanonical(n: nat)
    ensures IsDigit(Print(n)[0]) && (n > 0 ==> Print(n)[0] != '0')
  {
    if n >= 10 {
      PrintIsCanonical(n / 10);
    }
  }

  lemma {:induction false} ValueOfNonZero(s: string)
    requires s != [] && AllDigits(s) && s[0] != '0'
    ensures DigitsValue(s) > 0
  {
    assert s[|s| - 1] in s && s[0] in s;
    if |s| > 1 {
      ValueOfNonZero(s[..|s| - 1]);
    }
  }

  // A number without a leading zero is the printed form of its value.
  lemma {:induction false} CanonicalIsPrinted(s: string)
    requires s != [] && AllDigits(s) && s[0] != '0'
    ensures Print(DigitsValue(s)) == s
  {
    var last := |s| - 1;
    assert s[last] in s;
    var d := s[last] as nat - '0' as nat;
    assert s == s[..last] + [s[last]];
    if last > 0 {
      CanonicalIsPrinted(s[..last]);
      ValueOfNonZero(s[..last]);
      var n := DigitsValue(s);
      assert n / 10 == DigitsValue(s[..last]) && n % 10 == d;
    }
  }

  function Zeros(k: nat): string {
    seq(k, _ => '0')
  }

  lemma {:induction false} ZerosInFront(k: nat, digits: string)
    requires AllDigits(digits)
    ensures AllDigits(Zeros(k) + digits) && DigitsValue(Zeros(k) + digits) == DigitsValue(digits)
    decreases k + |digits|
  {
    var s := Zeros(k) + digits;
    if digits != "" {
      var n := |digits| - 1;
      assert forall c :: c in digits[..n] ==> c in digits;
      ZerosInFront(k, digits[..n]);
      assert s[..|s| - 1] == Zeros(k) + digits[..n];
    } else if k > 0 {
      ZerosInFront(k - 1, "");
      assert s[..|s| - 1] == Zeros(k - 1) + "" && s[|s| - 1] == '0';
    }
  }

  lemma {:induction false} ZerosStripped(s: string) returns (k: nat)
    requires s != "" && AllDigits(s)
    ensures s == Zeros(k) + Print(DigitsValue(s))
  {
    if s[0] != '0' {
      CanonicalIsPrinted(s);
      k := 0;
      assert s == Zeros(0) + s;
    } else if |s| == 1 {
      assert s == "0" && s[..0] == "" && DigitsValue(s) == 0;
      k := 0;
      assert s == Zeros(0) + Print(0);
    } else {
      var rest := ZerosStripped(s[1..]);
      ZerosInFront(1, s[1..]);
      assert Zeros(1) + s[1..] == s;
      k := rest + 1;
      assert Zeros(rest + 1) == ['0'] + Zeros(rest);
    }
  }

  // What reads as a number is its decimal form with any number of zeros in front.
  lemma ParseUintExactly(s: string, max: nat, n: nat)
    ensures ParseUint(s, max) == Some(n) <==> n <= max && exists k :: s == Zeros(k) + Print(n)
  {
    if ParseUint(s, max) == Some(n) {
      var k := ZerosStripped(s);
    }
    if k :| s == Zeros(k) + Print(n) {
      PrintReadsBack(n);
      ZerosInFront(k, Print(n));
    }
  }

  lemma DigitsRead(k: nat, n: nat)
    requires n <= MAX_INT
    ensures var digits := Zeros(k) + Print(n);
      && digits != "" && IsDigit(digits[0])
      && ParseUint(digits, MAX_INT) == Some(n) && ParseUint(digits, MAX_INT + 1) == Some(n)
  {
    hide ParseUint;
    var digits := Zeros(k) + Print(n);
    ParseUintExactly(digits, MAX_INT, n);
    ParseUintExactly(digits, MAX_INT + 1, n);
    PrintReadsBack(n);
    ZerosInFront(k, Print(n));
    assert digits[0] in digits;
  }

  // A sign may stand in front of the digits.
  lemma AtoiReads(k: nat, n: nat)
    requires n <= MAX_INT
    ensures Atoi(Zeros(k) + Print(n)) == Some(n) && Atoi("+" + (Zeros(k) + Print(n))) == Some(n)
    ensures Atoi("-" + (Zeros(k) + Print(n))) == Some(-(n as int))
  {
    hide ParseUint, Zeros, Print;
    DigitsRead(k, n);
    var digits := Zeros(k) + Print(n);
    assert ("+" + digits)[1..] == digits && ("-" + digits)[1..] == digits;
  }

  lemma AtoiFound(s: string, v: int) returns (k: nat)
    requires Atoi(s) == Some(v)
    ensures var digits := Zeros(k) + Print(if v < 0 then -v else v);
      (v >= 0 && (s == digits || s == "+" + digits)) || (v <= 0 && s == "-" + digits)
  {
    var n: nat := if v < 0 then -v else v;
    if s[0] == '-' || s[0] == '+' {
      ParseUintExactly(s[1..], if s[0] == '-' then MAX_INT + 1 else MAX_INT, n);
      k :| s[1..] == Zeros(k) + Print(n);
      assert s == [s[0]] + s[1..];
    } else {
      ParseUintExactly(s, MAX_INT, n);
      k :| s == Zeros(k) + Print(n);
    }
  }

  // ---- White space ----

  predicate IsSpace(c: char) { c in {' ', '\t', '\n', '\r', 11 as char, 12 as char} }

  // The other white space of Unicode, as it is written in UTF-8.
  predicate IsWideSpace(rune: string) {
    || (|rune| == 2 && rune[0] == 0xC2 as char && rune[1] in {0x85 as char, 0xA0 as char})
    || (|rune| == 3 && rune[0] == 0xE1 as char && rune[1] == 0x9A as char && rune[2] == 0x80 as char)
    || (|rune| == 3 && rune[0] == 0xE2 as char && rune[1] == 0x80 as char
        && (0x80 as char <= rune[2] <= 0x8A as char || rune[2] in {0xA8 as char, 0xA9 as char, 0xAF as char}))
    || (|rune| == 3 && rune[0] == 0xE2 as char && rune[1] == 0x81 as char && rune[2] == 0x9F as char)
    || (|rune| == 3 && rune[0] == 0xE3 as char && rune[1] == 0x80 as char && rune[2] == 0x80 as char)
  }

  // The length of the white space character the text starts with, or 0.
  function LeadingSpace(s: string): (n: nat)
    ensures n <= |s|
  {
    if s != "" && IsSpace(s[0]) then 1
    else if |s| >= 2 && IsWideSpace(s[..2]) then 2
    else if |s| >= 3 && IsWideSpace(s[..3]) then 3
    else 0
  }

  // The length of the one it ends with. Such a character is recognised from
  // behind as well, since its first byte occurs in no other place of a character.
  function TrailingSpace(s: string): (n: nat)
    ensures n <= |s|
  {
    if s != "" && IsSpace(s[|s| - 1]) then 1
    else if EndsWide(s, 2) then 2
    else if EndsWide(s, 3) then 3
    else 0
  }

  // The last n bytes are one wide white space character.
  predicate EndsWide(s: string, n: nat) { n <= |s| && IsWideSpace(s[|s| - n..]) }

  function TrimLeft(s: string): string {
    if LeadingSpace(s) > 0 then TrimLeft(s[LeadingSpace(s)..]) else s
  }

  function TrimRight(s: string): string {
    if TrailingSpace(s) > 0 then TrimRight(s[..|s| - TrailingSpace(s)]) else s
  }

  function TrimSpace(s: string): string { TrimRight(TrimLeft(s)) }

  lemma {:induction false} TrimShortens(s: string)
    ensures |TrimLeft(s)| <= |s| && (TrimLeft(s) == s || |TrimLeft(s)| < |s|)
    ensures TrimLeft(s) == s <==> LeadingSpace(s) == 0
    ensures |TrimRight(s)| <= |s| && (TrimRight(s) == s <==> TrailingSpace(s) == 0)
    decreases |s|
  {
    hide LeadingSpace, TrailingSpace;
    if LeadingSpace(s) > 0 { TrimShortens(s[LeadingSpace(s)..]); }
    if TrailingSpace(s) > 0 { TrimShortens(s[..|s| - TrailingSpace(s)]); }
  }

  // Each of these texts is one white space character.
  ghost predicate Spaces(runes: seq<string>) {
    forall i :: 0 <= i < |runes| ==> (|runes[i]| == 1 && IsSpace(runes[i][0])) || IsWideSpace(runes[i])
  }

  lemma EndRunes(s: string)
    ensures LeadingSpace(s) > 0 ==> Spaces([s[..LeadingSpace(s)]])
    ensures TrailingSpace(s) > 0 ==> Spaces([s[|s| - TrailingSpace(s)..]])
  {
    hide IsSpace, IsWideSpace;
  }

  lemma {:induction false} TrimLeftParts(s: string) returns (front: seq<string>)
    ensures Spaces(front) && s == Join(front, "") + TrimLeft(s) && LeadingSpace(TrimLeft(s)) == 0
    decreases |s|
  {
    hide IsSpace, IsWideSpace, LeadingSpace, TrailingSpace;
    EndRunes(s);
    if LeadingSpace(s) > 0 {
      var n := LeadingSpace(s);
      var rest := TrimLeftParts(s[n..]);
      front := [s[..n]] + rest;
      assert front[1..] == rest && [s[..n]][0] == s[..n];
      JoinFirst(s[..n], rest);
      assert s == s[..n] + s[n..];
    } else {
      front := [];
    }
  }

  lemma {:induction false} TrimRightParts(s: string) returns (back: seq<string>)
    ensures Spaces(back) && s == TrimRight(s) + Join(back, "") && TrailingSpace(TrimRight(s)) == 0
    decreases |s|
  {
    hide IsSpace, IsWideSpace, LeadingSpace, TrailingSpace, Join, Spaces;
    if TrailingSpace(s) > 0 {
      var n := |s| - TrailingSpace(s);
      var rest := TrimRightParts(s[..n]);
      back := rest + [s[n..]];
      EndRunes(s);
      SpacesAdded(rest, s[n..]);
      JoinLast(rest, s[n..]);
      assert s == s[..n] + s[n..];
    } else {
      back := [];
      NoSpaces();
    }
  }

  lemma SpacesAdded(runes: seq<string>, rune: string)
    requires Spaces(runes) && Spaces([rune])
    ensures Spaces(runes + [rune]) && Spaces([rune] + runes)
  {
    hide IsSpace, IsWideSpace;
    assert [rune][0] == rune;
  }

  lemma NoSpaces()
    ensures Spaces([]) && Join([], "") == ""
  {
  }

  lemma JoinFirst(first: string, parts: seq<string>)
    ensures Join([first] + parts, "") == first + Join(parts, "")
  {
    assert ([first] + parts)[1..] == parts;
  }

  lemma {:induction false} JoinLast(parts: seq<string>, last: string)
    ensures Join(parts + [last], "") == Join(parts, "") + last
  {
    if parts != [] {
      JoinLast(parts[1..], last);
      assert (parts + [last])[1..] == parts[1..] + [last];
    }
  }

  // Trimming takes white space off both ends, and all of it.
  lemma TrimmedParts(s: string) returns (front: seq<string>, back: seq<string>)
    ensures Spaces(front) && Spaces(back) && s == Join(front, "") + TrimSpace(s) + Join(back, "")
    ensures LeadingSpace(TrimSpace(s)) == 0 && TrailingSpace(TrimSpace(s)) == 0
  {
    front := TrimLeftParts(s);
    back := TrimRightParts(TrimLeft(s));
    PrefixLeads(TrimSpace(s), Join(back, ""));
  }

  lemma PrefixLeads(s: string, more: string)
    requires LeadingSpace(s + more) == 0
    ensures LeadingSpace(s) == 0
  {
    hide IsSpace, IsWideSpace;
    assert |s| >= 2 ==> (s + more)[..2] == s[..2];
    assert |s| >= 3 ==> (s + more)[..3] == s[..3];
  }

  // Trimming changes nothing exactly when neither end is a space.
  lemma Trimmed(s: string)
    ensures TrimSpace(s) == s <==> LeadingSpace(s) == 0 && TrailingSpace(s) == 0
  {
    TrimShortens(s);
    TrimShortens(TrimLeft(s));
  }

  lemma WideIsNotAscii(rune: string)
    ensures IsWideSpace(rune) ==> forall i :: 0 <= i < |rune| ==> rune[i] as nat >= 128
  {}

  lemma LeadingAscii(s: string)
    requires s != "" && !IsSpace(s[0]) && s[0] as nat < 128
    ensures LeadingSpace(s) == 0
  {
    hide IsSpace, IsWideSpace;
    if |s| >= 2 { WideIsNotAscii(s[..2]); }
    if |s| >= 3 { WideIsNotAscii(s[..3]); }
  }

  lemma TrailingAscii(s: string)
    requires s != "" && !IsSpace(s[|s| - 1]) && s[|s| - 1] as nat < 128
    ensures TrailingSpace(s) == 0
  {
    hide IsSpace, IsWideSpace;
    if |s| >= 2 {
      WideIsNotAscii(s[|s| - 2..]);
      assert s[|s| - 2..][1] == s[|s| - 1];
    }
    if |s| >= 3 {
      WideIsNotAscii(s[|s| - 3..]);
      assert s[|s| - 3..][2] == s[|s| - 1];
    }
  }

  // Text that neither starts nor ends in a space or a wide character stays.
  lemma TrimmedAscii(s: string)
    requires s == "" || (!IsSpace(s[0]) && !IsSpace(s[|s| - 1]) && s[0] as nat < 128 && s[|s| - 1] as nat < 128)
    ensures TrimSpace(s) == s
  {
    Trimmed(s);
    if s != "" {
      hide IsSpace, TrimSpace, LeadingSpace, TrailingSpace;
      LeadingAscii(s);
      TrailingAscii(s);
    }
  }
}
