// The control connection byte by byte: the commands as they are written, and
// the replies as they are read.
module FtpWire {
  import opened Wrappers
  import opened Text
  import opened Decimal
  import opened FtpReply
  import FtpPassive
  import opened FtpConnector

  // ---- Commands ----

  // A command and its argument, which is left out when it is blank.
  function CommandLine(e: Event): string
    requires e.Sent?
  {
    if TrimSpace(e.argument) == "" then e.command else e.command + " " + e.argument
  }

  // A line with an argument is cut at its first space into command and argument;
  // one without is the command alone.
  lemma CommandLineReads(e: Event)
    requires e.Sent? && ' ' !in e.command
    ensures TrimSpace(e.argument) == "" ==> CommandLine(e) == e.command
    ensures TrimSpace(e.argument) != "" ==>
      var k := IndexOf(CommandLine(e), ' ');
      CommandLine(e)[..k] == e.command && k < |CommandLine(e)| && CommandLine(e)[k + 1..] == e.argument
  {
    hide TrimSpace;
    assert e.command + " " + e.argument == e.command + [' '] + e.argument;
    IndexOfFirst(e.command, ' ', e.argument);
  }

  // The command lines of a trace, in order.
  function CommandLines(trace: seq<Event>): seq<string> {
    if trace == [] then []
    else (if trace[0].Sent? then [CommandLine(trace[0])] else []) + CommandLines(trace[1..])
  }

  // Lines as they are written, each ended by CRLF.
  function Wire(lines: seq<string>): string {
    if lines == [] then "" else lines[0] + "\r" + "\n" + Wire(lines[1..])
  }

  function WithCR(lines: seq<string>): seq<string> {
    seq(|lines|, i requires 0 <= i < |lines| => lines[i] + "\r")
  }

  // What was written, cut at every line feed, is these lines and nothing more.
  ghost predicate ReadsAsLines(lines: seq<string>) {
    Split(Wire(lines), '\n') == WithCR(lines) + [""]
  }

  lemma {:induction false} SplitsOnce(s: string, sep: char)
    ensures |Split(s, sep)| == 1 <==> sep !in s
  {
    if s != "" {
      SplitsOnce(s[1..], sep);
      assert sep in s <==> s[0] == sep || sep in s[1..];
    }
  }

  lemma WireSplit(lines: seq<string>)
    requires lines != []
    ensures Split(Wire(lines), '\n') == Split(lines[0] + "\r", '\n') + Split(Wire(lines[1..]), '\n')
  {
    SplitConcat(lines[0] + "\r", Wire(lines[1..]), '\n');
    assert Wire(lines) == (lines[0] + "\r") + ['\n'] + Wire(lines[1..]);
  }

  lemma {:induction false} AtLeastOneEach(lines: seq<string>)
    ensures |Split(Wire(lines), '\n')| >= |lines| + 1
  {
    if lines != [] {
      WireSplit(lines);
      AtLeastOneEach(lines[1..]);
    }
  }

  // The lines come apart as they went in exactly when none holds a line feed.
  lemma {:induction false} LinesComeApart(lines: seq<string>)
    ensures ReadsAsLines(lines) <==> forall l :: l in lines ==> '\n' !in l
  {
    if lines != [] {
      var first, rest := lines[0] + "\r", lines[1..];
      WireSplit(lines);
      AtLeastOneEach(rest);
      LinesComeApart(rest);
      SplitsOnce(first, '\n');
      assert lines == [lines[0]] + rest;
      assert WithCR(lines) == [first] + WithCR(rest);
      if '\n' in lines[0] {
        assert '\n' in first;
      } else {
        SplitWhole(first, '\n');
        assert Split(Wire(lines), '\n')[1..] == Split(Wire(rest), '\n');
        assert (WithCR(lines) + [""])[1..] == WithCR(rest) + [""];
        assert ReadsAsLines(lines) <==> ReadsAsLines(rest);
      }
    }
  }

  lemma {:induction false} LinesOfEvents(trace: seq<Event>, l: string)
    ensures l in CommandLines(trace) <==> exists e :: e in trace && e.Sent? && CommandLine(e) == l
  {
    hide CommandLine;
    if trace != [] {
      LinesOfEvents(trace[1..], l);
      assert trace == [trace[0]] + trace[1..];
    }
  }

  // The argument goes on the line as it is.
  ghost predicate TargetBreaksLines(w: World) {
    w.target.Some? && TrimSpace(w.target.value) != "" && '\n' in w.target.value
  }

  lemma SentIsKnown(trace: seq<Event>, w: World, e: Event)
    requires Sound(trace, w) && e in trace && e.Sent?
    ensures Transfers(e.command) || e.command in ["USER", "PASS", "TYPE", "EPSV", "PASV"]
    ensures e.argument == Argument(e.command, w)
  {
    hide Codes, DataDials, PassivePort, Argument;
    SentIsJustified(trace, w, e);
  }

  lemma FixedLine(e: Event, w: World)
    requires e.Sent? && e.command in ["USER", "PASS", "TYPE", "EPSV", "PASV"] && e.argument == Argument(e.command, w)
    ensures !Transfers(e.command) && '\n' !in CommandLine(e)
  {
    hide TrimSpace;
    assert '\n' !in e.argument && '\n' !in e.command;
  }

  lemma TransferLine(e: Event, w: World)
    requires e.Sent? && Transfers(e.command) && e.argument == Argument(e.command, w)
    ensures '\n' in CommandLine(e) <==> TargetBreaksLines(w)
  {
    hide TrimSpace;
    BlankIsBlank();
    assert '\n' !in e.command;
    assert e.argument == if w.target.None? then "" else w.target.value;
  }

  // One command is one line, except that a transfer command repeats the line
  // feeds of its target.
  lemma OneLineEach(trace: seq<Event>, w: World, e: Event)
    requires Sound(trace, w) && e in trace && e.Sent?
    ensures '\n' in CommandLine(e) <==> Transfers(e.command) && TargetBreaksLines(w)
  {
    hide *;
    SentIsKnown(trace, w, e);
    if Transfers(e.command) { TransferLine(e, w); } else { FixedLine(e, w); }
  }

  lemma BlankIsBlank()
    ensures TrimSpace("") == ""
  {}

  // The server sees exactly the commands of the script, one to a line, if and
  // only if no transfer command was sent or its target holds no line feed.
  lemma CommandsAreLines(trace: seq<Event>, w: World)
    requires Sound(trace, w)
    ensures ReadsAsLines(CommandLines(trace)) <==>
      !TargetBreaksLines(w) || forall e :: e in trace && e.Sent? ==> !Transfers(e.command)
  {
    hide Sound, CommandLine, CommandLines, TargetBreaksLines, Transfers;
    LinesComeApart(CommandLines(trace));
    forall e | e in trace && e.Sent?
      ensures '\n' in CommandLine(e) <==> Transfers(e.command) && TargetBreaksLines(w)
      ensures CommandLine(e) in CommandLines(trace)
    {
      OneLineEach(trace, w, e);
      LinesOfEvents(trace, CommandLine(e));
    }
    forall l | l in CommandLines(trace) ensures exists e :: e in trace && e.Sent? && CommandLine(e) == l {
      LinesOfEvents(trace, l);
    }
  }

  // ---- Replies ----

  // The world in which the server sends these bytes.
  function OnStream(w: World, input: string, maxBytes: nat): World {
    w.(replies := (n: nat) => ReplyAt(input, n, maxBytes))
  }

  // The world in which these are the server's replies.
  function WithReplies(w: World, ws: seq<WireReply>): World {
    w.(replies := (n: nat) => if n < |ws| then Some(AsReply(ws[n])) else None)
  }

  // An operation acts on at most this many replies.
  const MOST_REPLIES: nat := 8

  // With well-formed replies on the control connection, the operation returns
  // what these replies call for, whatever follows them.
  lemma StreamDecides(w: World, ws: seq<WireReply>, tail: string, maxBytes: nat, command: string)
    requires AllReplies(ws, maxBytes) && |ws| >= MOST_REPLIES
    ensures Returned(OnStream(w, WireReplies(ws) + tail, maxBytes), command) == Returned(WithReplies(w, ws), command)
  {
    hide AllReplies, WireReplies, AsReply, ReplyAt, Returned;
    var v, u := OnStream(w, WireReplies(ws) + tail, maxBytes), WithReplies(w, ws);
    forall n: nat | n < MOST_REPLIES ensures v.replies(n) == u.replies(n) {
      RepliesInOrder(ws, tail, maxBytes, n);
    }
    FirstRepliesDecide(v, u, command);
  }

  lemma FirstRepliesDecide(v: World, u: World, command: string)
    requires v == u.(replies := v.replies)
    requires forall n: nat :: n < MOST_REPLIES ==> v.replies(n) == u.replies(n)
    ensures Returned(v, command) == Returned(u, command)
  {
    hide OutcomeOf, Transfers, Retrieves, PassivePort;
    SamePassive(v, u);
  }

  lemma SamePassive(v: World, u: World)
    requires v == u.(replies := v.replies)
    requires forall n: nat :: n < MOST_REPLIES ==> v.replies(n) == u.replies(n)
    ensures PassivePort(v) == PassivePort(u)
  {
    hide FtpPassive.ParseEPSVPort, FtpPassive.ParsePASVPort;
  }
}
