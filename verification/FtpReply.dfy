// Bounded reading of FTP replies (section 4.2 of RFC 959).
module FtpReply {
  import opened Wrappers
  import opened Text
  import opened Decimal

  datatype Reply = Reply(code: int, body: string)

  datatype ReplyError = TooLong | StreamEnded | Malformed

  // ---- One line ----

  function IndexOf(s: string, c: char): (k: nat)
    ensures k <= |s|
  {
    if s == [] then 0 else if s[0] == c then 0 else 1 + IndexOf(s[1..], c)
  }

  datatype LineRead =
    | GotLine(text: string, consumed: nat, rest: string)
    | NoLine(error: ReplyError, rest: string)

  // The buffer behind the reader, never smaller than bufio's minimum.
  function BufferSize(maxBytes: nat): nat { if maxBytes + 1 < 16 then 16 else maxBytes + 1 }

  // Reading one line from the bytes the server will still send.
  function ReadLine(input: string, remaining: int, maxBytes: nat): (r: LineRead)
    ensures r.GotLine? ==> 0 < r.consumed <= remaining && |r.rest| < |input|
  {
    if remaining <= 0 then NoLine(TooLong, input)
    else
      var k := IndexOf(input, '\n');
      var size := BufferSize(maxBytes);
      if k < |input| && k < size then
        if k + 1 > remaining then NoLine(TooLong, input[k + 1..])
        else GotLine(TrimSuffix(input[..k], "\r"), k + 1, input[k + 1..])
      else if |input| >= size then NoLine(TooLong, input[size..])
      else NoLine(if |input| > remaining then TooLong else StreamEnded, "")
  }

  // ---- One reply ----

  function ParseReplyStart(line: string): Option<(int, char)> {
    if |line| < 3 then None
    else
      var code := Atoi(line[..3]);
      if code.None? || code.value < 100 || code.value > 599 then None
      else if |line| == 3 then Some((code.value, ' '))
      else if line[3] != ' ' && line[3] != '-' then None
      else Some((code.value, line[3]))
  }

  datatype ReplyRead =
    | GotReply(reply: Reply, rest: string)
    | NoReply(error: ReplyError, rest: string)

  function Terminator(code: int): string {
    if 0 <= code then Print(code) + " " else " "
  }

  datatype LinesRead =
    | GotLines(lines: seq<string>, rest: string)
    | NoLines(error: ReplyError, rest: string)

  // The lines of a multi-line reply up to the one that starts with the
  // terminator, after `used` bytes of it have been read.
  function ReadRest(input: string, terminator: string, used: int, lines: seq<string>, maxBytes: nat): LinesRead
    decreases |input|
  {
    match ReadLine(input, maxBytes - used, maxBytes)
    case NoLine(error, rest) => NoLines(error, rest)
    case GotLine(text, consumed, rest) =>
      if terminator <= text then GotLines(lines + [text], rest)
      else ReadRest(rest, terminator, used + consumed, lines + [text], maxBytes)
  }

  function ReadLines(input: string, code: int, first: string, used: int, maxBytes: nat): ReplyRead {
    match ReadRest(input, Terminator(code), used, [first], maxBytes)
    case NoLines(error, rest) => NoReply(error, rest)
    case GotLines(lines, rest) => GotReply(Reply(code, Join(lines, "\n")), rest)
  }

  function ReadReply(input: string, maxBytes: nat): ReplyRead {
    match ReadLine(input, maxBytes, maxBytes)
    case NoLine(error, rest) => NoReply(error, rest)
    case GotLine(text, consumed, rest) =>
      match ParseReplyStart(text)
      case None => NoReply(Malformed, rest)
      case Some((code, separator)) =>
        if separator != '-' then GotReply(Reply(code, text), rest)
        else ReadLines(rest, code, text, consumed, maxBytes)
  }

  // Where the first newline is, seen from a slice that ends in it or has none.
  lemma SliceEnd(whole: string, raw: string, rest: string)
    requires whole == raw + rest
    requires raw != "" && '\n' !in raw[..|raw| - 1] && raw[|raw| - 1] == '\n'
    ensures IndexOf(whole, '\n') == |raw| - 1 && TrimSuffix(raw, "\n") == whole[..|raw| - 1] && rest == whole[|raw|..]
  {
    hide IndexOf;
    var text := raw[..|raw| - 1];
    assert whole == text + ['\n'] + rest;
    IndexOfFirst(text, '\n', rest);
  }

  lemma SliceWithoutEnd(whole: string, raw: string, rest: string)
    requires whole == raw + rest && '\n' !in raw
    ensures IndexOf(whole, '\n') >= |raw| && rest == whole[|raw|..]
    ensures rest == "" ==> IndexOf(whole, '\n') == |whole|
  {
    hide IndexOf;
    FoundFirst(whole, '\n');
    assert forall i :: 0 <= i < |raw| ==> whole[i] == raw[i];
  }

  // The reader object: `input` is what the server will still send.
  class ReplyReader {
    var input: string
    const maxBytes: nat

    constructor (input: string, maxBytes: int)
      ensures this.input == input
      ensures this.maxBytes == if maxBytes <= 0 then 65536 else maxBytes
    {
      this.input := input;
      this.maxBytes := if maxBytes <= 0 then 65536 else maxBytes;
    }

    // bufio's ReadSlice: up to and including the next newline, a full buffer
    // without one, or whatever is left before the stream ends.
    method ReadSlice() returns (raw: string, full: bool, ended: bool)
      modifies this
      ensures old(input) == raw + input
      ensures !(full && ended) && |raw| <= BufferSize(maxBytes)
      ensures !full && !ended ==> raw != "" && '\n' !in raw[..|raw| - 1] && raw[|raw| - 1] == '\n'
      ensures full ==> |raw| == BufferSize(maxBytes) && '\n' !in raw
      ensures ended ==> input == "" && |raw| < BufferSize(maxBytes) && '\n' !in raw
    {
      var k, size := IndexOf(input, '\n'), BufferSize(maxBytes);
      FoundFirst(input, '\n');
      var n := if k < |input| && k < size then k + 1 else if |input| >= size then size else |input|;
      full, ended := n == size && !(k < size), n == |input| && k == |input| && n < size;
      raw, input := input[..n], input[n..];
    }

    // What the four checks let through is the line ReadLine describes.
    method NextLine(remaining: int) returns (line: LineRead)
      modifies this
      ensures line == ReadLine(old(input), remaining, maxBytes) && input == line.rest
    {
      if remaining <= 0 {
        return NoLine(TooLong, input);
      }
      var raw, full, ended := ReadSlice();
      if full || ended { SliceWithoutEnd(old(input), raw, input); } else { SliceEnd(old(input), raw, input); }
      if full || |raw| > remaining {
        return NoLine(TooLong, input);
      }
      if ended {
        return NoLine(StreamEnded, input);
      }
      var text := TrimSuffix(raw, "\n");
      return GotLine(TrimSuffix(text, "\r"), |raw|, input);
    }

    // Lines up to the terminator, within the bytes the reply may still use.
    method NextLines(terminator: string, first: string, consumed: int) returns (r: Result<seq<string>, ReplyError>)
      modifies this
      ensures match ReadRest(old(input), terminator, consumed, [first], maxBytes)
              case GotLines(lines, rest) => r == Ok(lines) && input == rest
              case NoLines(error, rest) => r == Err(error) && input == rest
    {
      hide TrimSuffix, IndexOf;
      var lines, used := [first], consumed;
      while true
        invariant ReadRest(old(input), terminator, consumed, [first], maxBytes) ==
            ReadRest(input, terminator, used, lines, maxBytes)
        decreases |input|
      {
        var next := NextLine(maxBytes - used);
        if next.NoLine? {
          return Err(next.error);
        }
        used := used + next.consumed;
        lines := lines + [next.text];
        if terminator <= next.text {
          return Ok(lines);
        }
      }
    }

    method NextReply() returns (r: Result<Reply, ReplyError>)
      modifies this
      ensures match ReadReply(old(input), maxBytes)
              case GotReply(reply, rest) => r == Ok(reply) && input == rest
              case NoReply(error, rest) => r == Err(error) && input == rest
    {
      var first := NextLine(maxBytes);
      if first.NoLine? {
        return Err(first.error);
      }
      var start := ParseReplyStart(first.text);
      if start.None? {
        return Err(Malformed);
      }
      var code := start.value.0;
      if start.value.1 != '-' {
        return Ok(Reply(code, first.text));
      }
      var lines := NextLines(Terminator(code), first.text, first.consumed);
      if lines.Err? {
        return Err(lines.error);
      }
      return Ok(Reply(code, Join(lines.value, "\n")));
    }
  }

  // ---- The wire form of replies ----

  // A line as sent, ended by CRLF or by a bare LF.
  datatype Line = Line(text: string, cr: bool) {
    function Wire(): string { text + (if cr then "\r\n" else "\n") }

    predicate Valid() { '\n' !in text && (cr || !HasSuffix(text, "\r")) }
  }

  function WireAll(lines: seq<Line>): string {
    if lines == [] then "" else lines[0].Wire() + WireAll(lines[1..])
  }

  function Texts(lines: seq<Line>): seq<string> {
    seq(|lines|, i requires 0 <= i < |lines| => lines[i].text)
  }

  // The continuation lines of a multi-line reply: none but the last starts
  // with the code and a space.
  ghost predicate Continues(code: int, lines: seq<Line>) {
    EndsAt(Terminator(code), lines)
  }

  // The last line, and no line before it, starts with the mark.
  ghost predicate EndsAt(mark: string, lines: seq<Line>) {
    && lines != []
    && mark <= lines[|lines| - 1].text
    && forall i :: 0 <= i < |lines| - 1 ==> !(mark <= lines[i].text)
  }

  // A reply as section 4.2 of RFC 959 defines it.
  ghost predicate IsReply(code: int, lines: seq<Line>) {
    && 100 <= code <= 599
    && lines != [] && (forall l :: l in lines ==> l.Valid())
    && if |lines| == 1 then lines[0].text == Print(code) || Print(code) + " " <= lines[0].text
       else Print(code) + "-" <= lines[0].text && EndsAt(Print(code) + " ", lines[1..])
  }

  lemma {:induction false} FoundFirst(s: string, c: char)
    ensures var k := IndexOf(s, c); c !in s[..k] && (k < |s| ==> s[k] == c)
  {
    if s != [] && s[0] != c {
      FoundFirst(s[1..], c);
      var k := IndexOf(s, c);
      assert s[..k] == [s[0]] + s[1..][..k - 1];
    }
  }

  lemma {:induction false} IndexOfFirst(a: string, c: char, b: string)
    requires c !in a
    ensures IndexOf(a + [c] + b, c) == |a|
  {
    if a != [] {
      IndexOfFirst(a[1..], c, b);
      assert (a + [c] + b)[1..] == a[1..] + [c] + b;
    }
  }

  lemma ReadsLine(l: Line, rest: string, remaining: int, maxBytes: nat)
    requires l.Valid() && |l.Wire()| <= remaining <= maxBytes
    ensures ReadLine(l.Wire() + rest, remaining, maxBytes) == GotLine(l.text, |l.Wire()|, rest)
  {
    var raw := if l.cr then l.text + "\r" else l.text;
    assert l.Wire() + rest == raw + "\n" + rest;
    IndexOfFirst(raw, '\n', rest);
    assert (raw + "\n" + rest)[..|raw|] == raw;
    assert (raw + "\n" + rest)[|raw| + 1..] == rest;
  }

  lemma TrimmedSuffix(s: string, suffix: string)
    ensures s == if HasSuffix(s, suffix) then TrimSuffix(s, suffix) + suffix else TrimSuffix(s, suffix)
    ensures TrimSuffix(s, suffix) <= s
  {}

  lemma LineIsWire(input: string, remaining: int, maxBytes: nat) returns (l: Line)
    requires ReadLine(input, remaining, maxBytes).GotLine?
    ensures var r := ReadLine(input, remaining, maxBytes);
            l.Valid() && l.text == r.text && |l.Wire()| == r.consumed && input == l.Wire() + r.rest
  {
    hide IndexOf, TrimSuffix;
    var k := IndexOf(input, '\n');
    FoundFirst(input, '\n');
    var raw := input[..k];
    TrimmedSuffix(raw, "\r");
    l := Line(TrimSuffix(raw, "\r"), HasSuffix(raw, "\r"));
    assert input == raw + "\n" + input[k + 1..];
    assert l.cr ==> raw == l.text + "\r";
  }

  // ---- Codes are three digits ----

  lemma {:induction false} ValueBelow(s: string)
    requires AllDigits(s) && |s| <= 2
    ensures DigitsValue(s) < 100
  {
    if |s| > 0 {
      assert s[|s| - 1] in s;
      if |s| == 2 {
        assert s[0] in s && s[..1] == [s[0]] && [s[0]][..0] == [];
        assert DigitsValue([s[0]]) <= 9;
      } else {
        assert s[..0] == [];
      }
    }
  }

  // An accepted line starts with the three digits of its code.
  lemma StartIsCode(line: string)
    requires ParseReplyStart(line).Some?
    ensures var (code, separator) := ParseReplyStart(line).value;
            && 100 <= code <= 599 && |Print(code)| == 3 && line[..3] == Print(code)
            && (separator == ' ' || separator == '-')
            && (separator == ' ' ==> line == Print(code) || Print(code) + " " <= line)
            && (separator == '-' ==> Print(code) + "-" <= line)
  {
    var (code, separator) := ParseReplyStart(line).value;
    var d := line[..3];
    if d[0] == '+' { ValueBelow(d[1..]); }
    assert AllDigits(d);
    if d[0] == '0' {
      LeadingZero(d);
    }
    CanonicalIsPrinted(d);
    assert line == d + line[3..];
  }

  lemma LeadingZero(d: string)
    requires |d| == 3 && AllDigits(d) && d[0] == '0'
    ensures DigitsValue(d) < 100
  {
    assert d[2] in d && d[1] in d;
    assert d[..2][..1] == ['0'] && d[..2][1] == d[1];
    assert ['0'][..0] == [];
    assert DigitsValue(['0']) == 0;
  }

  lemma CodeReads(code: int)
    requires 100 <= code <= 599
    ensures |Print(code)| == 3 && Atoi(Print(code)) == Some(code)
  {
    var s := Print(code);
    assert Print(code / 10 / 10) == ['0' + (code / 10 / 10) as char];
    assert |Print(code / 10)| == 2;
    PrintReadsBack(code);
    assert s[0] in s;
  }

  lemma StartOfReply(code: int, line: string, separator: char)
    requires 100 <= code <= 599 && (separator == ' ' || separator == '-')
    requires Print(code) + [separator] <= line || (line == Print(code) && separator == ' ')
    ensures ParseReplyStart(line) == Some((code, separator))
  {
    CodeReads(code);
    assert line[..3] == Print(code);
  }

  // ---- Framing ----

  lemma TextsCons(l: Line, more: seq<Line>)
    ensures Texts([l] + more) == [l.text] + Texts(more)
    ensures WireAll([l] + more) == l.Wire() + WireAll(more)
  {
    assert ([l] + more)[1..] == more;
  }

  lemma RestStep(l: Line, rest: string, terminator: string, used: nat, before: seq<string>, maxBytes: nat)
    requires l.Valid() && used + |l.Wire()| <= maxBytes
    ensures ReadRest(l.Wire() + rest, terminator, used, before, maxBytes)
         == if terminator <= l.text then GotLines(before + [l.text], rest)
            else ReadRest(rest, terminator, used + |l.Wire()|, before + [l.text], maxBytes)
  {
    hide ReadLine, Line.Wire, Line.Valid;
    ReadsLine(l, rest, maxBytes - used, maxBytes);
  }

  lemma {:induction false} ReadsRest(
    code: int, lines: seq<Line>, tail: string, used: nat, before: seq<string>, maxBytes: nat)
    requires Continues(code, lines) && (forall l :: l in lines ==> l.Valid())
    requires used + |WireAll(lines)| <= maxBytes
    ensures ReadRest(WireAll(lines) + tail, Terminator(code), used, before, maxBytes) ==
        GotLines(before + Texts(lines), tail)
    decreases |lines|
  {
    hide ReadLine, Print, Line.Wire, Line.Valid, Continues, Terminator, ReadRest, WireAll, Texts;
    ContinuesHead(code, lines);
    var l, more := lines[0], lines[1..];
    TextsCons(l, more);
    assert lines == [l] + more;
    assert WireAll(lines) + tail == l.Wire() + (WireAll(more) + tail);
    RestStep(l, WireAll(more) + tail, Terminator(code), used, before, maxBytes);
    if more == [] {
      NothingWired(tail);
    } else {
      ReadsRest(code, more, tail, used + |l.Wire()|, before + [l.text], maxBytes);
      assert before + [l.text] + Texts(more) == before + Texts(lines);
    }
  }

  lemma ContinuesHead(code: int, lines: seq<Line>)
    requires Continues(code, lines)
    ensures lines != [] && (Terminator(code) <= lines[0].text <==> lines[1..] == [])
    ensures lines[1..] != [] ==> Continues(code, lines[1..])
  {
    hide Terminator;
    if lines[1..] != [] {
      assert lines[1..][|lines| - 2] == lines[|lines| - 1];
    }
  }

  lemma NothingWired(tail: string)
    ensures WireAll([]) + tail == tail && Texts([]) == []
  {
  }

  // Reading a reply off the front of any bytes returns its code and lines and
  // leaves exactly what follows it.
  lemma ReadsReply(code: int, lines: seq<Line>, tail: string, maxBytes: nat)
    requires IsReply(code, lines) && |WireAll(lines)| <= maxBytes
    ensures ReadReply(WireAll(lines) + tail, maxBytes) == GotReply(Reply(code, Join(Texts(lines), "\n")), tail)
  {
    hide ReadLine, ReadRest, ParseReplyStart, Print, Line.Wire, Line.Valid;
    var l, more := lines[0], lines[1..];
    assert lines == [l] + more;
    TextsCons(l, more);
    assert WireAll(lines) + tail == l.Wire() + (WireAll(more) + tail);
    ReadsLine(l, WireAll(more) + tail, maxBytes, maxBytes);
    if more == [] {
      StartOfReply(code, l.text, ' ');
      assert WireAll(more) + tail == tail;
      assert Texts(lines) == [l.text];
    } else {
      StartOfReply(code, l.text, '-');
      ReadsRest(code, more, tail, |l.Wire()|, [l.text], maxBytes);
    }
  }

  lemma {:induction false} RestIsWire(
    input: string, code: int, used: nat, before: seq<string>, maxBytes: nat) returns (lines: seq<Line>)
    requires ReadRest(input, Terminator(code), used, before, maxBytes).GotLines?
    ensures Continues(code, lines) && (forall l :: l in lines ==> l.Valid())
    ensures var r := ReadRest(input, Terminator(code), used, before, maxBytes);
            && input == WireAll(lines) + r.rest && used + |WireAll(lines)| <= maxBytes
            && r.lines == before + Texts(lines)
    decreases |input|
  {
    hide ReadLine, Print, Line.Wire, Line.Valid, Continues, Texts, WireAll;
    var l := LineIsWire(input, maxBytes - used, maxBytes);
    var rest := ReadLine(input, maxBytes - used, maxBytes).rest;
    RestStep(l, rest, Terminator(code), used, before, maxBytes);
    if Terminator(code) <= l.text {
      lines := [l];
      LastLine(code, l);
    } else {
      var more := RestIsWire(rest, code, used + |l.Wire()|, before + [l.text], maxBytes);
      lines := [l] + more;
      TextsCons(l, more);
      assert before + [l.text] + Texts(more) == before + Texts(lines);
      ContinuesAfter(code, l, more);
    }
  }

  lemma LastLine(code: int, l: Line)
    requires Terminator(code) <= l.text
    ensures Continues(code, [l]) && Texts([l]) == [l.text] && WireAll([l]) == l.Wire()
  {
    hide Line.Wire;
    TextsCons(l, []);
    assert [l] + [] == [l];
  }

  lemma ContinuesAfter(code: int, l: Line, more: seq<Line>)
    requires Continues(code, more) && !(Terminator(code) <= l.text)
    ensures Continues(code, [l] + more)
  {
    var lines := [l] + more;
    assert lines[|lines| - 1] == more[|more| - 1];
    forall i | 0 <= i < |lines| - 1 ensures !(Terminator(code) <= lines[i].text) {
      assert i > 0 ==> lines[i] == more[i - 1];
    }
  }

  // Conversely, whatever ReadReply accepts is such a reply at the front of the
  // input, of at most maxBytes bytes, and the rest is left unread.
  lemma ReplyIsWire(input: string, maxBytes: nat) returns (lines: seq<Line>)
    requires ReadReply(input, maxBytes).GotReply?
    ensures var r := ReadReply(input, maxBytes);
            && IsReply(r.reply.code, lines) && |WireAll(lines)| <= maxBytes
            && input == WireAll(lines) + r.rest
            && r.reply.body == Join(Texts(lines), "\n")
  {
    hide ReadLine, ReadRest, ParseReplyStart, Print, Line.Wire, Line.Valid;
    var l := LineIsWire(input, maxBytes, maxBytes);
    var rest := ReadLine(input, maxBytes, maxBytes).rest;
    StartIsCode(l.text);
    var (code, separator) := ParseReplyStart(l.text).value;
    var more := [];
    if separator == '-' {
      more := RestIsWire(rest, code, |l.Wire()|, [l.text], maxBytes);
    }
    lines := [l] + more;
    TextsCons(l, more);
    assert lines[1..] == more;
  }

  // The body determines the lines.
  lemma BodyIsLines(lines: seq<Line>)
    requires lines != [] && forall l :: l in lines ==> l.Valid()
    ensures Split(Join(Texts(lines), "\n"), '\n') == Texts(lines)
  {
    forall p | p in Texts(lines) ensures '\n' !in p {
      var i :| 0 <= i < |lines| && Texts(lines)[i] == p;
      assert lines[i] in lines;
    }
    SplitJoin(Texts(lines), '\n');
  }

  // ---- Several replies ----

  datatype WireReply = WireReply(code: int, lines: seq<Line>)

  ghost predicate AllReplies(ws: seq<WireReply>, maxBytes: nat) {
    forall w :: w in ws ==> IsReply(w.code, w.lines) && |WireAll(w.lines)| <= maxBytes
  }

  function WireReplies(ws: seq<WireReply>): string {
    if ws == [] then "" else WireAll(ws[0].lines) + WireReplies(ws[1..])
  }

  function AsReply(w: WireReply): Reply {
    Reply(w.code, Join(Texts(w.lines), "\n"))
  }

  function AsRead(ws: seq<WireReply>): seq<Reply> {
    seq(|ws|, i requires 0 <= i < |ws| => AsReply(ws[i]))
  }

  // Calling the reader n times, stopping at the first failure.
  function ReadMany(input: string, n: nat, maxBytes: nat): (seq<Reply>, string)
    decreases n
  {
    if n == 0 then ([], input)
    else
      match ReadReply(input, maxBytes)
      case NoReply(_, rest) => ([], rest)
      case GotReply(reply, rest) =>
        var (more, left) := ReadMany(rest, n - 1, maxBytes);
        ([reply] + more, left)
  }

  lemma AsReadCons(ws: seq<WireReply>)
    requires ws != []
    ensures AsRead(ws) == [AsReply(ws[0])] + AsRead(ws[1..])
  {}

  lemma ReadsFirst(ws: seq<WireReply>, tail: string, maxBytes: nat)
    requires AllReplies(ws, maxBytes) && ws != []
    ensures ReadReply(WireReplies(ws) + tail, maxBytes) == GotReply(AsReply(ws[0]), WireReplies(ws[1..]) + tail)
    ensures AllReplies(ws[1..], maxBytes)
  {
    hide ReadReply, WireAll, IsReply, Join, Texts;
    var rest := WireReplies(ws[1..]) + tail;
    assert ws[0] in ws;
    assert WireReplies(ws) + tail == WireAll(ws[0].lines) + rest;
    ReadsReply(ws[0].code, ws[0].lines, rest, maxBytes);
  }

  // Repeated reading of replies sent back to back returns exactly those
  // replies and leaves exactly the bytes after the last.
  lemma {:induction false} ReadsAllReplies(ws: seq<WireReply>, tail: string, maxBytes: nat)
    requires AllReplies(ws, maxBytes)
    ensures ReadMany(WireReplies(ws) + tail, |ws|, maxBytes) == (AsRead(ws), tail)
  {
    if ws == [] {
      assert WireReplies(ws) + tail == tail;
      assert AsRead(ws) == [];
    } else {
      hide ReadReply, WireReplies, AsRead, AsReply, AllReplies;
      ReadsFirst(ws, tail, maxBytes);
      ReadsAllReplies(ws[1..], tail, maxBytes);
      AsReadCons(ws);
    }
  }

  // The n-th reply read from a stream, if every reply up to it can be read.
  function ReplyAt(input: string, n: nat, maxBytes: nat): Option<Reply>
    decreases n
  {
    match ReadReply(input, maxBytes)
    case NoReply(_, _) => None
    case GotReply(reply, rest) => if n == 0 then Some(reply) else ReplyAt(rest, n - 1, maxBytes)
  }

  // Reading one at a time meets the replies that were sent, each in its place.
  lemma {:induction false} RepliesInOrder(ws: seq<WireReply>, tail: string, maxBytes: nat, n: nat)
    requires AllReplies(ws, maxBytes)
    ensures n < |ws| ==> ReplyAt(WireReplies(ws) + tail, n, maxBytes) == Some(AsReply(ws[n]))
    ensures n >= |ws| ==> ReplyAt(WireReplies(ws) + tail, n, maxBytes) == ReplyAt(tail, n - |ws|, maxBytes)
    decreases |ws|
  {
    hide *;
    if ws == [] {
      NothingSent(tail);
    } else {
      ReadsFirst(ws, tail, maxBytes);
      ReplyAtStep(WireReplies(ws) + tail, n, maxBytes);
      if n > 0 {
        RepliesInOrder(ws[1..], tail, maxBytes, n - 1);
        assert n < |ws| ==> ws[1..][n - 1] == ws[n];
      }
    }
  }

  lemma NothingSent(tail: string)
    ensures WireReplies([]) + tail == tail
  {}

  lemma ReplyAtStep(input: string, n: nat, maxBytes: nat)
    requires ReadReply(input, maxBytes).GotReply?
    ensures var r := ReadReply(input, maxBytes);
      ReplyAt(input, n, maxBytes) == if n == 0 then Some(r.reply) else ReplyAt(r.rest, n - 1, maxBytes)
  {
    hide ReadReply;
  }
}
