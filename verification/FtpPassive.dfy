// Ports out of passive-mode replies: EPSV (section 3 of RFC 2428) and PASV
// (section 4.1.2 of RFC 959).
module FtpPassive {
  import opened Wrappers
  import opened Text
  import opened Decimal
  import opened FtpReply

  // The text between the first `(` and the first `)`.
  function Parenthesized(body: string): Option<string> {
    var start, end := IndexOf(body, '('), IndexOf(body, ')');
    if start == |body| || end == |body| || end <= start then None else Some(body[start + 1..end])
  }

  function ParseEPSVPort(body: string): Option<nat> {
    match Parenthesized(body)
    case None => None
    case Some(inside) =>
      if |inside| < 5 then None
      else
        var parts := Split(inside, inside[0]);
        if |parts| != 5 || parts[0] != "" || parts[1] != "" || parts[2] != "" || parts[4] != "" then None
        else ParsePort(TrimSpace(parts[3]))
  }

  // One number of the six in a PASV reply.
  function ParseOctet(part: string): Option<nat> {
    match Atoi(TrimSpace(part))
    case None => None
    case Some(value) => if value < 0 || value > 255 then None else Some(value as nat)
  }

  function ParsePASVPort(body: string): Option<nat> {
    match Parenthesized(body)
    case None => None
    case Some(inside) =>
      var parts := Split(inside, ',');
      if |parts| != 6 || exists p :: p in parts && ParseOctet(p).None? then None
      else
        assert parts[4] in parts && parts[5] in parts;
        var port := ParseOctet(parts[4]).value * 256 + ParseOctet(parts[5]).value;
        if port == 0 then None else Some(port)
  }

  method PASVPort(body: string) returns (port: Option<nat>)
    ensures port == ParsePASVPort(body)
  {
    hide Atoi, TrimSpace, Split, IndexOf;
    var inside := Parenthesized(body);
    if inside.None? {
      return None;
    }
    var parts := Split(inside.value, ',');
    if |parts| != 6 {
      return None;
    }
    var values := new nat[|parts|](_ => 0);
    for index := 0 to |parts|
      invariant forall j :: 0 <= j < index ==> ParseOctet(parts[j]) == Some(values[j])
    {
      var value := Atoi(TrimSpace(parts[index]));
      if value.None? || value.value < 0 || value.value > 255 {
        assert parts[index] in parts;
        return None;
      }
      values[index] := value.value;
    }
    var result := values[4] * 256 + values[5];
    if result == 0 {
      return None;
    }
    return Some(result);
  }

  // Either way of asking yields a port that can be dialled.
  lemma PortsInRange(body: string)
    ensures ParseEPSVPort(body).Some? ==> 1 <= ParseEPSVPort(body).value <= 65535
    ensures ParsePASVPort(body).Some? ==> 1 <= ParsePASVPort(body).value <= 65535
  {
    hide Atoi, TrimSpace, IndexOf, Split;
  }

  // ---- What servers send ----

  lemma NumberReads(n: nat)
    requires n <= MAX_INT
    ensures TrimSpace(Print(n)) == Print(n) && Atoi(Print(n)) == Some(n)
    ensures forall c :: c in Print(n) ==> IsDigit(c)
  {
    PrintReadsBack(n);
    var s := Print(n);
    assert s[0] in s && s[|s| - 1] in s;
    TrimmedAscii(s);
  }

  lemma InsideParentheses(before: string, inside: string, after: string)
    requires '(' !in before && ')' !in before && ')' !in inside
    ensures Parenthesized(before + "(" + inside + ")" + after) == Some(inside)
  {
    var body := before + "(" + inside + ")" + after;
    var rest := inside + ")" + after;
    assert body == before + ['('] + rest;
    IndexOfFirst(before, '(', rest);
    var front := before + "(" + inside;
    assert body == front + [')'] + after;
    IndexOfFirst(front, ')', after);
    assert body[|before| + 1..|front|] == inside;
  }

  // What is found lies between the first parentheses of the body.
  lemma ParenthesesFound(body: string) returns (before: string, after: string)
    requires Parenthesized(body).Some?
    ensures var inside := Parenthesized(body).value;
      && body == before + "(" + inside + ")" + after
      && '(' !in before && ')' !in before && ')' !in inside
  {
    hide IndexOf;
    FoundFirst(body, '(');
    FoundFirst(body, ')');
    var start, end := IndexOf(body, '('), IndexOf(body, ')');
    before, after := body[..start], body[end + 1..];
    assert body == body[..start] + body[start..start + 1] + body[start + 1..end] + body[end..end + 1] + body[end + 1..];
    assert forall i :: 0 <= i < end ==> body[i] == body[..end][i];
  }

  lemma FiveParts(d: char, x: string)
    requires d !in x
    ensures Split([d, d, d] + x + [d], d) == ["", "", "", x, ""]
  {
    var s := [d, d, d] + x + [d];
    var tail := x + [d] + "";
    SplitCons(x, "", d);
    SplitCons("", tail, d);
    SplitCons("", [d] + tail, d);
    SplitCons("", [d] + ([d] + tail), d);
    assert "" + [d] + tail == [d] + tail;
    assert "" + [d] + ([d] + tail) == [d] + ([d] + tail);
    assert "" + [d] + ([d] + ([d] + tail)) == s;
  }

  // An EPSV reply whose text before the parenthesis has none, with any
  // delimiter that is neither a digit nor the closing parenthesis.
  lemma EPSVReads(before: string, d: char, port: nat, after: string)
    requires '(' !in before && ')' !in before && !IsDigit(d) && d != ')'
    requires 1 <= port <= 65535
    ensures ParseEPSVPort(before + "(" + ([d, d, d] + Print(port) + [d]) + ")" + after) == Some(port)
  {
    hide Atoi, TrimSpace, IndexOf, Parenthesized;
    NumberReads(port);
    var inside := [d, d, d] + Print(port) + [d];
    InsideParentheses(before, inside, after);
    FiveParts(d, Print(port));
    assert |inside| >= 5 && inside[0] == d;
  }

  // The accepted EPSV bodies: three delimiters, a number, a delimiter.
  lemma EPSVAccepts(body: string)
    requires ParseEPSVPort(body).Some?
    ensures var inside := Parenthesized(body).value;
            exists d, x :: inside == [d, d, d] + x + [d] && d !in x && ParsePort(TrimSpace(x)) == ParseEPSVPort(body)
  {
    hide Atoi, TrimSpace, IndexOf, Parenthesized;
    var inside := Parenthesized(body).value;
    var d := inside[0];
    var parts := Split(inside, d);
    SplitParts(inside, d);
    var x := parts[3];
    assert parts == ["", "", "", x, ""];
    FiveParts(d, x);
    SplitParts([d, d, d] + x + [d], d);
    assert inside == [d, d, d] + x + [d];
  }

  // Six numbers as a PASV reply spells them.
  function Fields(h: seq<nat>): seq<string> {
    seq(|h|, i requires 0 <= i < |h| => Print(h[i]))
  }

  // A PASV reply yields its last two numbers as the port, whatever address the
  // first four spell.
  lemma PASVReads(before: string, h: seq<nat>, after: string)
    requires '(' !in before && ')' !in before
    requires |h| == 6 && (forall i :: 0 <= i < 6 ==> h[i] <= 255) && h[4] * 256 + h[5] > 0
    ensures ParsePASVPort(before + "(" + Join(Fields(h), ",") + ")" + after) == Some(h[4] * 256 + h[5])
  {
    hide Atoi, TrimSpace, IndexOf, Parenthesized, Print, Join;
    var parts := Fields(h);
    forall p | p in parts ensures ParseOctet(p).Some? && ',' !in p && ')' !in p {
      var i :| 0 <= i < 6 && parts[i] == p;
      NumberReads(h[i]);
    }
    NumberReads(h[4]);
    NumberReads(h[5]);
    SplitJoin(parts, ',');
    JoinAvoids(parts, ",", ')');
    InsideParentheses(before, Join(parts, ","), after);
  }
}
