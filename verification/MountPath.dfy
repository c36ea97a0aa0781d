// Request paths: percent-decoding, the checks made before matching, and the
// lexical clean.
module MountPath {
  import opened Wrappers
  import opened Text

  datatype PathError =
    | NotAbsolute
    | EncodedSeparator
    | InvalidEscape
    | NotUtf8
    | Backslash
    | ControlCharacter
    | DoubleEncoding
    | Traversal

  // ---- Hexadecimal escapes (section 2.1 of RFC 3986) ----

  function HexNibble(value: char): (r: Option<nat>)
    ensures r.Some? ==> r.value < 16 && value != '%' && value != '/'
  {
    if '0' <= value <= '9' then Some(value as nat - '0' as nat)
    else if 'a' <= value <= 'f' then Some(value as nat - 'a' as nat + 10)
    else if 'A' <= value <= 'F' then Some(value as nat - 'A' as nat + 10)
    else None
  }

  function DecodeHexByte(high: char, low: char): Option<char> {
    match (HexNibble(high), HexNibble(low))
    case (Some(hi), Some(lo)) => Some((hi * 16 + lo) as char)
    case _ => None
  }

  // The digit for n in either case.
  function Digit(n: nat, upper: bool): char
    requires n < 16
  {
    if n < 10 then (n + '0' as nat) as char else (n - 10 + (if upper then 'A' else 'a') as nat) as char
  }

  // Exactly the digits of either case are read, each as its value.
  lemma NibblesAreDigits(value: char, n: nat)
    ensures HexNibble(value) == Some(n) <==> n < 16 && (value == Digit(n, true) || value == Digit(n, false))
  {}

  // The escape that starts at position i, decoded.
  function EscapeAt(s: string, i: nat): Option<char> {
    if i + 2 < |s| && s[i] == '%' then DecodeHexByte(s[i + 1], s[i + 2]) else None
  }

  // url.PathUnescape: every percent sign must start an escape.
  function Unescape(s: string): Option<string> {
    if s == [] then Some([])
    else if s[0] == '%' then
      match EscapeAt(s, 0)
      case None => None
      case Some(c) => (match Unescape(s[3..]) case None => None case Some(rest) => Some([c] + rest))
    else
      match Unescape(s[1..]) case None => None case Some(rest) => Some([s[0]] + rest)
  }

  ghost predicate AllBytes(s: string) {
    forall i :: 0 <= i < |s| ==> s[i] as nat < 256
  }

  function EscapeOf(c: char): string
    requires c as nat < 256
  {
    ['%', Digit(c as nat / 16, true), Digit(c as nat % 16, false)]
  }

  ghost function Escaped(s: string): string
    requires AllBytes(s)
  {
    if s == [] then [] else EscapeOf(s[0]) + Escaped(s[1..])
  }

  // Every byte can be written as an escape and is read back.
  lemma {:induction false} EscapedReadsBack(s: string)
    requires AllBytes(s)
    ensures Unescape(Escaped(s)) == Some(s)
  {
    hide HexNibble;
    if s != [] {
      var c := s[0] as nat;
      NibblesAreDigits(Digit(c / 16, true), c / 16);
      NibblesAreDigits(Digit(c % 16, false), c % 16);
      EscapedReadsBack(s[1..]);
      assert EscapeAt(Escaped(s), 0) == Some(s[0]);
      assert Escaped(s)[3..] == Escaped(s[1..]);
      assert [s[0]] + s[1..] == s;
    }
  }

  // ---- The scanner for encoded separators ----

  predicate IsSeparator(c: char) { c == '/' || c == '\\' }

  // What the scanner sees from the front of s: it steps over three bytes at
  // every percent sign, whether or not they form an escape.
  predicate ScansSeparator(s: string) {
    if |s| < 3 then false
    else if s[0] != '%' then ScansSeparator(s[1..])
    else
      var c := EscapeAt(s, 0);
      (c.Some? && IsSeparator(c.value)) || ScansSeparator(s[3..])
  }

  method HasEncodedSeparator(value: string) returns (found: bool)
    ensures found == ScansSeparator(value)
  {
    var i := 0;
    while i + 2 < |value|
      invariant 0 <= i
      invariant ScansSeparator(value) == (i <= |value| && ScansSeparator(value[i..]))
    {
      if value[i] == '%' {
        assert EscapeAt(value[i..], 0) == DecodeHexByte(value[i + 1], value[i + 2]);
        assert value[i..][3..] == value[i + 3..];
        var decoded := DecodeHexByte(value[i + 1], value[i + 2]);
        if decoded.Some? && IsSeparator(decoded.value) {
          return true;
        }
        i := i + 2;
      } else {
        assert value[i..][1..] == value[i + 1..];
      }
      i := i + 1;
    }
    return false;
  }

  function Separators(s: string): nat {
    if s == [] then 0 else (if IsSeparator(s[0]) then 1 else 0) + Separators(s[1..])
  }

  // On text the decoder accepts, the scanner fires exactly when decoding would
  // produce a separator that was not already written literally.
  lemma {:induction false} ScannerExact(raw: string)
    requires Unescape(raw).Some?
    ensures Separators(Unescape(raw).value) >= Separators(raw)
    ensures ScansSeparator(raw) <==> Separators(Unescape(raw).value) > Separators(raw)
  {
    if raw != [] {
      if raw[0] == '%' {
        ScannerExact(raw[3..]);
        assert raw[1..][1..] == raw[2..] && raw[2..][1..] == raw[3..];
        assert !IsSeparator(raw[1]) && !IsSeparator(raw[2]);
        assert Separators(raw) == Separators(raw[3..]);
      } else {
        ScannerExact(raw[1..]);
      }
    }
  }

  // On text the decoder rejects, the skip can miss an encoded slash.
  lemma SkipNeedsDecoder()
    ensures var raw := "/%%2f"; EscapeAt(raw, 2) == Some('/') && !ScansSeparator(raw) && Unescape(raw).None?
  {
    var raw := "/%%2f";
    assert raw[1..] == "%%2f" && raw[1..][3..] == "f";
    assert EscapeAt(raw[1..], 0).None?;
  }

  // ---- Double encoding ----

  ghost predicate HasEscape(s: string) {
    exists i: nat :: EscapeAt(s, i).Some?
  }

  method ContainsPercentEscape(value: string) returns (found: bool)
    ensures found == HasEscape(value)
  {
    var i := 0;
    while i + 2 < |value|
      invariant 0 <= i
      invariant forall j: nat :: j < i ==> EscapeAt(value, j).None?
    {
      if value[i] == '%' && DecodeHexByte(value[i + 1], value[i + 2]).Some? {
        assert EscapeAt(value, i).Some?;
        return true;
      }
      i := i + 1;
    }
    return false;
  }

  // ---- UTF-8 ----

  predicate Between(s: string, i: nat, low: nat, high: nat) {
    i < |s| && low <= s[i] as nat <= high
  }

  // The length of the first encoded rune, 0 when there is none.
  function RuneLength(s: string): (n: nat)
    requires s != []
    ensures n <= |s|
  {
    var b := s[0] as nat;
    if b < 0x80 then 1
    else if 0xC2 <= b <= 0xDF && Between(s, 1, 0x80, 0xBF) then 2
    else if 0xE0 <= b <= 0xEF
         && Between(s, 1, if b == 0xE0 then 0xA0 else 0x80, if b == 0xED then 0x9F else 0xBF)
         && Between(s, 2, 0x80, 0xBF) then 3
    else if 0xF0 <= b <= 0xF4
         && Between(s, 1, if b == 0xF0 then 0x90 else 0x80, if b == 0xF4 then 0x8F else 0xBF)
         && Between(s, 2, 0x80, 0xBF) && Between(s, 3, 0x80, 0xBF) then 4
    else 0
  }

  predicate ValidUtf8(s: string) {
    s == [] || (RuneLength(s) > 0 && ValidUtf8(s[RuneLength(s)..]))
  }

  // ---- path.Clean ----

  // Eliminates empty and `.` elements, and each `..` with the element before
  // it; a `..` at the root is dropped.
  function Eliminate(parts: seq<string>, rooted: bool, out: seq<string>): seq<string> {
    if parts == [] then out
    else
      var p := parts[0];
      var out' :=
        if p == "" || p == "." then out
        else if p != ".." then out + [p]
        else if out != [] && out[|out| - 1] != ".." then out[..|out| - 1]
        else if rooted then out
        else out + [p];
      Eliminate(parts[1..], rooted, out')
  }

  function Clean(path: string): string {
    if path == "" then "."
    else
      var rooted := path[0] == '/';
      var out := Eliminate(Split(path, '/'), rooted, []);
      if rooted then "/" + Join(out, "/")
      else if out == [] then "."
      else Join(out, "/")
  }

  // ---- NormalizePath ----

  predicate IsControl(c: char) { c as nat < 0x20 || c as nat == 0x7f }

  predicate IsTraversal(segment: string) { segment == "." || segment == ".." }

  ghost function Normalize(raw: string): Result<string, PathError> {
    if !("/" <= raw) then Err(NotAbsolute)
    else if ScansSeparator(raw) then Err(EncodedSeparator)
    else
      match Unescape(raw)
      case None => Err(InvalidEscape)
      case Some(decoded) =>
        if !ValidUtf8(decoded) then Err(NotUtf8)
        else if '\\' in decoded then Err(Backslash)
        else if exists c :: c in decoded && IsControl(c) then Err(ControlCharacter)
        else if HasEscape(decoded) then Err(DoubleEncoding)
        else if exists p :: p in Split(decoded, '/') && IsTraversal(p) then Err(Traversal)
        else
          var cleaned := Clean(decoded);
          Ok(if HasSuffix(decoded, "/") && cleaned != "/" then cleaned + "/" else cleaned)
  }

  method NormalizePath(raw: string) returns (r: Result<string, PathError>)
    ensures r == Normalize(raw)
  {
    if !("/" <= raw) {
      return Err(NotAbsolute);
    }
    var encoded := HasEncodedSeparator(raw);
    if encoded {
      return Err(EncodedSeparator);
    }
    var unescaped := Unescape(raw);
    if unescaped.None? {
      return Err(InvalidEscape);
    }
    var decoded := unescaped.value;
    if !ValidUtf8(decoded) {
      return Err(NotUtf8);
    }
    if '\\' in decoded {
      return Err(Backslash);
    }
    for i := 0 to |decoded|
      invariant forall j :: 0 <= j < i ==> !IsControl(decoded[j])
    {
      if IsControl(decoded[i]) {
        return Err(ControlCharacter);
      }
    }
    var again := ContainsPercentEscape(decoded);
    if again {
      return Err(DoubleEncoding);
    }
    var segments := Split(decoded, '/');
    for i := 0 to |segments|
      invariant forall j :: 0 <= j < i ==> !IsTraversal(segments[j])
    {
      if IsTraversal(segments[i]) {
        return Err(Traversal);
      }
    }
    var normalized := Clean(decoded);
    if HasSuffix(decoded, "/") && normalized != "/" {
      normalized := normalized + "/";
    }
    return Ok(normalized);
  }

  // ---- Decoding never moves a segment boundary ----

  function UnescapeAll(parts: seq<string>): Option<seq<string>> {
    if parts == [] then Some([])
    else
      match (Unescape(parts[0]), UnescapeAll(parts[1..]))
      case (Some(p), Some(rest)) => Some([p] + rest)
      case _ => None
  }

  lemma GlueDecodes(head: string, head': string, parts: seq<string>, decoded: seq<string>)
    requires parts != [] && decoded != [] && UnescapeAll(parts) == Some(decoded)
    requires Unescape(head + parts[0]) == Some(head' + decoded[0])
    ensures UnescapeAll(Glue(head, parts)) == Some(Glue(head', decoded))
  {
    assert Glue(head, parts)[1..] == parts[1..];
    assert decoded == [decoded[0]] + decoded[1..];
  }

  // Splitting first and decoding each piece gives the pieces of the decoded text.
  lemma {:induction false} DecodeSegments(raw: string)
    requires Unescape(raw).Some? && !ScansSeparator(raw)
    ensures UnescapeAll(Split(raw, '/')) == Some(Split(Unescape(raw).value, '/'))
  {
    if raw == [] {
      var parts: seq<string> := [""];
      assert Split(raw, '/') == parts && parts[1..] == [];
      assert Unescape(parts[0]) == Some("") && [""] + parts[1..] == parts;
    } else if raw[0] == '%' {
      var c := EscapeAt(raw, 0).value;
      DecodeSegments(raw[3..]);
      SplitHead(raw[..3], raw[3..], '/');
      assert raw[..3] + raw[3..] == raw;
      var parts := Split(raw[3..], '/');
      var rest := Unescape(raw[3..]).value;
      assert (raw[..3] + parts[0])[3..] == parts[0];
      assert EscapeAt(raw[..3] + parts[0], 0) == Some(c);
      GlueDecodes(raw[..3], [c], parts, Split(rest, '/'));
      assert ([c] + rest)[1..] == rest;
    } else {
      DecodeSegments(raw[1..]);
      var parts := Split(raw[1..], '/');
      var rest := Unescape(raw[1..]).value;
      assert ([raw[0]] + rest)[1..] == rest;
      if raw[0] == '/' {
        assert ([[]] + parts)[1..] == parts;
      } else {
        assert ([raw[0]] + parts[0])[1..] == parts[0];
        GlueDecodes([raw[0]], [raw[0]], parts, Split(rest, '/'));
      }
    }
  }
}
