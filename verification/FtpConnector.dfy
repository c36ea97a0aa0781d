// One FTP operation: login, passive setup and transfer over a control and a
// data connection.
module FtpConnector {
  import opened Wrappers
  import opened FtpReply
  import opened FtpPassive

  datatype Outcome = Success | NotFound | PermissionDenied | UpstreamFailure

  // Everything the rest of the world decides. The n-th reply read and the n-th
  // command written are numbered from 0; a reply that cannot be read is None.
  // Cancellation shows as reads and writes that fail.
  datatype World = World(
    target: Option<string>,           // the path of the resource, if it parses
    controlDials: bool,
    peer: Option<string>,             // the numeric address of the control peer
    replies: nat -> Option<Reply>,
    writes: nat -> bool,
    dataDials: bool,
    copies: bool)                     // the body was copied to the data connection

  datatype Event =
    | ControlOpened
    | ControlClosed
    | Sent(command: string, argument: string)
    | WriteFailed
    | Got(code: int)
    | ReadFailed
    | DataDialed(host: string, port: nat, ok: bool)
    | DataClosed

  datatype Operated =
    | Failed
    | Finished(outcome: Outcome)
    | Streaming(command: string)  // the returned body owns both connections

  // A refusal is never a success; only these codes have a meaning of their own.
  function OutcomeOf(code: int): (r: Outcome)
    ensures r == PermissionDenied <==> code in {530, 532}
    ensures r == NotFound <==> code == 550
    ensures r != Success
  {
    if code == 530 || code == 532 then PermissionDenied
    else if code == 550 then NotFound
    else UpstreamFailure
  }

  predicate EPSVUnsupported(code: int) { code == 500 || code == 501 || code == 502 || code == 522 }

  function UpperChar(c: char): char {
    if 'a' <= c <= 'z' then (c as nat - 'a' as nat + 'A' as nat) as char else c
  }

  function ToUpper(s: string): string {
    seq(|s|, i requires 0 <= i < |s| => UpperChar(s[i]))
  }

  function TransferCommand(verb: string): string {
    var command := ToUpper(verb);
    if command == "PUT" then "STOR" else if command == "GET" then "RETR" else command
  }

  predicate Retrieves(command: string) { command == "RETR" || command == "LIST" }

  predicate Transfers(command: string) { command == "STOR" || Retrieves(command) }

  // ---- Verbs ----

  // The text is the upper-case word, in letters of either case.
  predicate Spells(text: string, word: string) {
    |text| == |word| && forall i :: 0 <= i < |text| ==>
      text[i] == word[i] || ('A' <= word[i] <= 'Z' && text[i] as nat == word[i] as nat + 32)
  }

  // The transfer a verb asks for, if it asks for one.
  function Requested(verb: string): Option<string> {
    if Spells(verb, "GET") || Spells(verb, "RETR") then Some("RETR")
    else if Spells(verb, "PUT") || Spells(verb, "STOR") then Some("STOR")
    else if Spells(verb, "LIST") then Some("LIST")
    else None
  }

  lemma UpperSpells(text: string, word: string)
    requires forall i :: 0 <= i < |word| ==> 'A' <= word[i] <= 'Z'
    ensures ToUpper(text) == word <==> Spells(text, word)
  {
    if Spells(text, word) {
      forall i | 0 <= i < |text| ensures ToUpper(text)[i] == word[i] {}
    }
    if ToUpper(text) == word {
      forall i | 0 <= i < |text|
        ensures text[i] == word[i] || ('A' <= word[i] <= 'Z' && text[i] as nat == word[i] as nat + 32)
      {
        assert ToUpper(text)[i] == UpperChar(text[i]);
      }
    }
  }

  // The command sent is the transfer requested, and there is none for other verbs.
  lemma CommandIsRequested(verb: string)
    ensures Transfers(TransferCommand(verb)) <==> Requested(verb).Some?
    ensures Requested(verb).Some? ==> TransferCommand(verb) == Requested(verb).value
  {
    hide ToUpper, Spells;
    UpperSpells(verb, "GET");
    UpperSpells(verb, "RETR");
    UpperSpells(verb, "PUT");
    UpperSpells(verb, "STOR");
    UpperSpells(verb, "LIST");
  }

  // ---- What a trace shows ----

  function Commands(trace: seq<Event>): seq<string> {
    if trace == [] then []
    else
      var last := trace[|trace| - 1];
      Commands(trace[..|trace| - 1]) + (if last.Sent? then [last.command] else [])
  }

  function Codes(trace: seq<Event>): seq<int> {
    if trace == [] then []
    else
      var last := trace[|trace| - 1];
      Codes(trace[..|trace| - 1]) + (if last.Got? then [last.code] else [])
  }

  // The socket was opened and nothing in the trace closed it.
  ghost predicate ControlOpen(trace: seq<Event>) {
    ControlOpened in trace && ControlClosed !in trace
  }

  ghost predicate DataOpen(trace: seq<Event>) {
    (exists e :: e in trace && e.DataDialed? && e.ok) && DataClosed !in trace
  }

  // The order in which the protocol sends commands.
  function Script(pass: bool, pasv: bool, transfer: string): seq<string> {
    ["USER"] + (if pass then ["PASS"] else []) + ["TYPE", "EPSV"] + (if pasv then ["PASV"] else []) + [transfer]
  }

  ghost predicate FollowsScript(trace: seq<Event>, transfer: string) {
    exists pass, pasv :: Commands(trace) <= Script(pass, pasv, transfer)
  }

  // Each step that needs the server's consent directly follows it.
  predicate JustifiedBy(before: Event, e: Event) {
    match e
    case Sent(command, _) =>
      if command == "USER" then before.Got?
      else if command == "PASS" then before == Got(331)
      else if command == "TYPE" then before == Got(230)
      else if command == "EPSV" then before == Got(200)
      else if command == "PASV" then before.Got? && before.code in {500, 501, 502, 522}
      else Transfers(command) && before.DataDialed? && before.ok
    case DataDialed(_, _, _) => before == Got(229) || before == Got(227)
    case _ => true
  }

  ghost predicate AllJustified(trace: seq<Event>) {
    trace != [] && trace[0] == ControlOpened && forall i :: 0 < i < |trace| ==> JustifiedBy(trace[i - 1], trace[i])
  }

  // What goes on the line after the command; a blank argument is not written.
  function Argument(command: string, w: World): string {
    if command == "USER" then "anonymous"
    else if command == "PASS" then "anonymous@example.com"
    else if command == "TYPE" then "I"
    else if command == "EPSV" || command == "PASV" || w.target.None? then ""
    else w.target.value
  }

  ghost predicate ArgumentsFit(trace: seq<Event>, w: World) {
    forall e :: e in trace && e.Sent? ==> e.argument == Argument(e.command, w)
  }

  function DataDials(trace: seq<Event>): nat {
    if trace == [] then 0
    else DataDials(trace[..|trace| - 1]) + (if trace[|trace| - 1].DataDialed? then 1 else 0)
  }

  ghost predicate DialsPeer(trace: seq<Event>, w: World) {
    && DataDials(trace) <= 1
    && forall e :: e in trace && e.DataDialed? ==>
         && w.peer == Some(e.host) && 1 <= e.port <= 65535
         && PassivePort(w).Some? && e.port == PassivePort(w).value.0
  }

  // The codes acted on are the server's replies, in order.
  ghost predicate ReadsReplies(trace: seq<Event>, w: World) {
    forall i :: 0 <= i < |Codes(trace)| ==> w.replies(i).Some? && Codes(trace)[i] == w.replies(i).value.code
  }

  // ---- When the transfer starts ----

  function Code(w: World, n: nat): int {
    match w.replies(n) case None => 0 case Some(reply) => reply.code
  }

  // The login took place, with or without a password.
  predicate LoggedIn(w: World) {
    && w.target.Some? && w.controlDials && w.replies(0).Some? && w.writes(0)
    && (Code(w, 1) == 230 || (Code(w, 1) == 331 && w.writes(1) && Code(w, 2) == 230))
  }

  // How many extra commands the password took.
  function Asked(w: World): nat { if Code(w, 1) == 331 then 1 else 0 }

  // The port a passive reply gave, and how many extra commands it took.
  function PassivePort(w: World): (r: Option<(nat, nat)>)
    ensures r.Some? ==> r.value.1 <= 1
  {
    var n := 2 + Asked(w);
    if !w.writes(n) || w.replies(n + 1).None? then None
    else if Code(w, n + 1) == 229 then
      (match ParseEPSVPort(w.replies(n + 1).value.body) case None => None case Some(port) => Some((port, 0)))
    else if !EPSVUnsupported(Code(w, n + 1)) || !w.writes(n + 1) || w.replies(n + 2).None? || Code(w, n + 2) != 227
        then None
    else
      (match ParsePASVPort(w.replies(n + 2).value.body) case None => None case Some(port) => Some((port, 1)))
  }

  // Everything up to the data dial went well.
  predicate Prepared(w: World) {
    && LoggedIn(w) && w.peer.Some?
    && w.writes(1 + Asked(w)) && Code(w, 2 + Asked(w)) == 200
    && PassivePort(w).Some?
  }

  // Both connections are up and the server has agreed to the transfer.
  predicate TransferStarts(w: World) {
    && Prepared(w) && w.dataDials
    && var n := 3 + Asked(w) + PassivePort(w).value.1;
       w.writes(n) && 100 <= Code(w, n + 1) <= 199
  }

  // A transfer to the server starts, is sent and is confirmed.
  predicate Stores(w: World) {
    TransferStarts(w) && w.copies && 200 <= Code(w, 5 + Asked(w) + PassivePort(w).value.1) <= 299
  }

  // ---- What the operation returns ----

  // The reply that turned the login down, if one did.
  function LoginRefusal(w: World): Option<int> {
    if w.replies(0).None? || !w.writes(0) || w.replies(1).None? then None
    else if Code(w, 1) == 331 then
      if w.writes(1) && w.replies(2).Some? && Code(w, 2) != 230 then Some(Code(w, 2)) else None
    else if Code(w, 1) != 230 then Some(Code(w, 1))
    else None
  }

  // The answer to the transfer command when it is the n-th command written.
  function Answer(w: World, command: string, n: nat): Operated {
    if !Transfers(command) || !w.writes(n) || w.replies(n + 1).None? then Failed
    else if !(100 <= Code(w, n + 1) <= 199) then Finished(OutcomeOf(Code(w, n + 1)))
    else if Retrieves(command) then Streaming(command)
    else if !w.copies || w.replies(n + 2).None? then Failed
    else if 200 <= Code(w, n + 2) <= 299 then Finished(Success)
    else Finished(OutcomeOf(Code(w, n + 2)))
  }

  // A refused login or transfer is a finished operation with the outcome of
  // the refusing code; everything else that goes wrong is a failure.
  function Returned(w: World, command: string): Operated {
    if w.target.None? || !w.controlDials then Failed
    else if LoginRefusal(w).Some? then Finished(OutcomeOf(LoginRefusal(w).value))
    else if !Prepared(w) || !w.dataDials then Failed
    else Answer(w, command, 3 + Asked(w) + PassivePort(w).value.1)
  }

  // When USER is written: a greeting could be read, whatever its code.
  predicate Greeted(w: World) {
    w.target.Some? && w.controlDials && w.replies(0).Some? && w.writes(0)
  }

  // The same world with another greeting.
  function WithGreeting(w: World, greeting: Reply): World {
    w.(replies := (n: nat) => if n == 0 then Some(greeting) else w.replies(n))
  }

  // The greeting's code and text decide nothing: whether USER is written and
  // what the operation returns are the same for any readable greeting.
  lemma GreetingDecidesNothing(w: World, greeting: Reply, command: string)
    requires w.replies(0).Some?
    ensures Returned(WithGreeting(w, greeting), command) == Returned(w, command)
    ensures Greeted(WithGreeting(w, greeting)) == Greeted(w)
  {
    hide PassivePort, OutcomeOf, TransferStarts;
    SamePassivePort(w, greeting);
  }

  lemma SamePassivePort(w: World, greeting: Reply)
    ensures PassivePort(WithGreeting(w, greeting)) == PassivePort(w)
  {
    hide ParseEPSVPort, ParsePASVPort;
  }

  // ---- Traces grow at the end ----

  lemma Appended(trace: seq<Event>, e: Event)
    ensures var longer := trace + [e];
            && Commands(longer) == Commands(trace) + (if e.Sent? then [e.command] else [])
            && Codes(longer) == Codes(trace) + (if e.Got? then [e.code] else [])
            && DataDials(longer) == DataDials(trace) + (if e.DataDialed? then 1 else 0)
  {
    assert (trace + [e])[..|trace|] == trace;
  }

  lemma AppendedJustified(trace: seq<Event>, e: Event)
    requires AllJustified(trace) && JustifiedBy(trace[|trace| - 1], e)
    ensures AllJustified(trace + [e])
  {
    hide JustifiedBy;
  }

  // ---- The operation ----

  // What every trace shows, however the operation goes.
  ghost predicate Sound(trace: seq<Event>, w: World) {
    AllJustified(trace) && ArgumentsFit(trace, w) && ReadsReplies(trace, w) && DialsPeer(trace, w)
  }

  ghost predicate NoData(trace: seq<Event>) {
    DataDials(trace) == 0 && DataClosed !in trace && forall e :: e in trace ==> !e.DataDialed?
  }

  // Nothing is forgotten and no data connection is dialled.
  ghost predicate SameDials(before: seq<Event>, after: seq<Event>) {
    && (forall e :: e in before ==> e in after) && (forall e :: e in after && e.DataDialed? ==> e in before)
  }

  lemma DialsAppended(trace: seq<Event>, e: Event)
    requires !e.DataDialed?
    ensures SameDials(trace, trace + [e])
    ensures e != DataClosed && DataClosed !in trace ==> DataClosed !in trace + [e]
  {}

  lemma DialsTransitive(a: seq<Event>, b: seq<Event>, c: seq<Event>)
    requires SameDials(a, b) && SameDials(b, c)
    ensures SameDials(a, c)
  {}

  // The data connection was closed before the confirmation was read.
  ghost predicate ClosedThenConfirmed(trace: seq<Event>) {
    exists i :: 0 <= i < |trace| - 1 && trace[i] == DataClosed && trace[i + 1].Got? && 200 <= trace[i + 1].code <= 299
  }

  // The control connection's reader and writer, with a record of their use.
  class Conversation {
    const w: World
    var trace: seq<Event>
    var received: nat
    var sent: nat

    // No read or write has failed so far.
    ghost predicate Live()
      reads this
    {
      && Sound(trace, w) && ControlClosed !in trace
      && |Codes(trace)| == received && |Commands(trace)| == sent
    }

    constructor (w: World)
      ensures this.w == w && trace == [ControlOpened] && received == 0 && sent == 0
      ensures Live() && NoData(trace) && Commands(trace) == []
    {
      this.w, trace, received, sent := w, [ControlOpened], 0, 0;
      new;
      Appended([], ControlOpened);
      assert trace == [] + [ControlOpened];
    }

    method Log(e: Event)
      requires Sound(trace, w) && JustifiedBy(trace[|trace| - 1], e)
      requires !e.Got? && !e.Sent?
      requires e.DataDialed? ==>
        && DataDials(trace) == 0 && w.peer == Some(e.host) && 1 <= e.port <= 65535
        && PassivePort(w).Some? && e.port == PassivePort(w).value.0
      modifies this`trace
      ensures Sound(trace, w) && trace == old(trace) + [e]
      ensures Commands(trace) == old(Commands(trace)) && Codes(trace) == old(Codes(trace))
      ensures old(Live()) && e != ControlClosed ==> Live()
    {
      hide PassivePort;
      Appended(trace, e);
      AppendedJustified(trace, e);
      trace := trace + [e];
    }

    method Send(command: string, argument: string) returns (ok: bool)
      requires Live() && JustifiedBy(trace[|trace| - 1], Sent(command, argument)) && argument == Argument(command, w)
      modifies this`trace, this`sent
      ensures ok == w.writes(old(sent))
      ensures Sound(trace, w) && trace == old(trace) + [if ok then Sent(command, argument) else WriteFailed]
      ensures ok ==> Live() && sent == old(sent) + 1
      ensures Commands(trace) == old(Commands(trace)) + (if ok then [command] else [])
      ensures ControlClosed !in trace && (old(NoData(trace)) ==> NoData(trace))
    {
      hide PassivePort, Argument;
      ok := w.writes(sent);
      var e := if ok then Sent(command, argument) else WriteFailed;
      Appended(trace, e);
      AppendedJustified(trace, e);
      trace, sent := trace + [e], sent + 1;
    }

    method Receive() returns (reply: Option<Reply>)
      requires Live()
      modifies this`trace, this`received
      ensures reply == w.replies(old(received))
      ensures Sound(trace, w) && trace == old(trace) + [if reply.Some? then Got(reply.value.code) else ReadFailed]
      ensures reply.Some? ==> Live() && received == old(received) + 1
      ensures Commands(trace) == old(Commands(trace))
      ensures ControlClosed !in trace && (old(NoData(trace)) ==> NoData(trace))
    {
      hide PassivePort;
      reply := w.replies(received);
      var e := if reply.Some? then Got(reply.value.code) else ReadFailed;
      Appended(trace, e);
      AppendedJustified(trace, e);
      trace, received := trace + [e], received + 1;
    }

    // Greeting, USER and, when the server asks for it, PASS.
    method Login() returns (done: Option<Operated>)
      requires Live() && NoData(trace) && Commands(trace) == [] && received == 0
      requires w.target.Some? && w.controlDials
      modifies this
      ensures Sound(trace, w) && NoData(trace) && ControlClosed !in trace
      ensures done.None? <==> LoggedIn(w)
      ensures done == if LoggedIn(w) then None
                      else Some(if LoginRefusal(w).Some? then Finished(OutcomeOf(LoginRefusal(w).value)) else Failed)
      ensures LoggedIn(w) ==> LoginRefusal(w).None?
      ensures Commands(trace) <= ["USER", "PASS"] && (Commands(trace) != [] <==> Greeted(w))
      ensures done.None? ==>
        && Live() && Commands(trace) == ["USER"] + (if Asked(w) == 1 then ["PASS"] else [])
        && received == 2 + Asked(w) && trace[|trace| - 1] == Got(230)
    {
      hide Commands, Codes, DataDials, AllJustified, ReadsReplies, DialsPeer, NoData;
      var reply := Receive();
      if reply.None? {
        return Some(Failed);
      }
      var ok := Send("USER", "anonymous");
      if !ok {
        return Some(Failed);
      }
      reply := Receive();
      if reply.None? {
        return Some(Failed);
      }
      if reply.value.code != 331 && reply.value.code != 230 {
        return Some(Finished(OutcomeOf(reply.value.code)));
      }
      if reply.value.code == 331 {
        ok := Send("PASS", "anonymous@example.com");
        if !ok {
          return Some(Failed);
        }
        reply := Receive();
        if reply.None? {
          return Some(Failed);
        }
        if reply.value.code != 230 {
          return Some(Finished(OutcomeOf(reply.value.code)));
        }
      }
      return None;
    }

    method SetBinary() returns (ok: bool)
      requires Live() && NoData(trace) && trace[|trace| - 1] == Got(230)
      requires sent == 1 + Asked(w) && received == 2 + Asked(w)
      modifies this
      ensures Sound(trace, w) && NoData(trace) && ControlClosed !in trace
      ensures ok <==> w.writes(1 + Asked(w)) && Code(w, 2 + Asked(w)) == 200
      ensures old(Commands(trace)) <= Commands(trace) <= old(Commands(trace)) + ["TYPE"]
      ensures ok ==> Live() && Commands(trace) == old(Commands(trace)) + ["TYPE"]
                     && received == 3 + Asked(w) && trace[|trace| - 1] == Got(200)
    {
      ok := Send("TYPE", "I");
      if !ok {
        return false;
      }
      var reply := Receive();
      return reply.Some? && reply.value.code == 200;
    }

    // EPSV, and PASV when the server does not support it: the port to dial.
    method Passive() returns (port: Option<nat>)
      requires Live() && NoData(trace) && trace[|trace| - 1] == Got(200)
      requires sent == 2 + Asked(w) && received == 3 + Asked(w) && w.peer.Some?
      modifies this
      ensures Sound(trace, w) && NoData(trace) && ControlClosed !in trace
      ensures port == match PassivePort(w) case None => None case Some(p) => Some(p.0)
      ensures old(Commands(trace)) <= Commands(trace) <= old(Commands(trace)) + ["EPSV", "PASV"]
      ensures port.Some? ==>
        && Live() && 1 <= port.value <= 65535
        && Commands(trace) == old(Commands(trace)) + ["EPSV"] + (if PassivePort(w).value.1 == 1 then ["PASV"] else [])
        && received == 4 + Asked(w) + PassivePort(w).value.1
        && (trace[|trace| - 1] == Got(229) || trace[|trace| - 1] == Got(227))
    {
      hide ParseEPSVPort, ParsePASVPort, Commands, Codes, DataDials, AllJustified, ReadsReplies, DialsPeer, NoData;
      var ok := Send("EPSV", "");
      if !ok {
        return None;
      }
      var reply := Receive();
      if reply.None? {
        return None;
      }
      if reply.value.code == 229 {
        PortsInRange(reply.value.body);
        return ParseEPSVPort(reply.value.body);
      }
      if !EPSVUnsupported(reply.value.code) {
        return None;
      }
      ok := Send("PASV", "");
      if !ok {
        return None;
      }
      reply := Receive();
      if reply.None? || reply.value.code != 227 {
        return None;
      }
      PortsInRange(reply.value.body);
      return ParsePASVPort(reply.value.body);
    }

    // The transfer command and the code of the reply to it.
    method Ask(command: string, path: string) returns (code: Option<int>)
      requires Live() && trace[|trace| - 1].DataDialed? && trace[|trace| - 1].ok && DataClosed !in trace
      requires Transfers(command) && w.target == Some(path)
      modifies this
      ensures code == if w.writes(old(sent)) && w.replies(old(received)).Some?
          then Some(w.replies(old(received)).value.code) else None
      ensures Sound(trace, w) && ControlClosed !in trace && DataClosed !in trace
      ensures Commands(trace) == old(Commands(trace)) + (if w.writes(old(sent)) then [command] else [])
      ensures code.Some? ==> Live() && received == old(received) + 1
      ensures SameDials(old(trace), trace)
    {
      ghost var before := trace[|trace| - 1];
      hide *;
      MayTransfer(command, w, before);
      ghost var start := trace;
      var ok := Send(command, path);
      ghost var asked := trace;
      DialsAppended(start, if ok then Sent(command, path) else WriteFailed);
      if !ok {
        return None;
      }
      var reply := Receive();
      DialsAppended(asked, if reply.Some? then Got(reply.value.code) else ReadFailed);
      DialsTransitive(start, asked, trace);
      return if reply.None? then None else Some(reply.value.code);
    }

    // The transfer command, once the data connection is up.
    method Transfer(verb: string, path: string) returns (r: Operated)
      requires received == 1 + sent && w.target == Some(path)
      requires Live() && trace[|trace| - 1].DataDialed? && trace[|trace| - 1].ok && DataClosed !in trace
      modifies this
      ensures Sound(trace, w) && ControlClosed !in trace
      ensures old(Commands(trace)) <= Commands(trace) <= old(Commands(trace)) + [TransferCommand(verb)]
      ensures r == Answer(w, TransferCommand(verb), old(sent))
      ensures r.Streaming? ==> DataClosed !in trace
      ensures r == Finished(Success) ==> ClosedThenConfirmed(trace)
      ensures SameDials(old(trace), trace)
    {
      hide Commands, Codes, AllJustified, ArgumentsFit, ReadsReplies, DialsPeer, TransferCommand,
          ClosedThenConfirmed, OutcomeOf, Sound;
      var command := TransferCommand(verb);
      if !Transfers(command) {
        return Failed;
      }
      var code := Ask(command, path);
      if code.None? {
        return Failed;
      }
      if code.value < 100 || code.value > 199 {
        return Finished(OutcomeOf(code.value));
      }
      if command != "STOR" {
        return Streaming(command);
      }
      r := FinishStore();
    }

    // Closes the data connection after the copy and reads the confirmation.
    method FinishStore() returns (r: Operated)
      requires Live()
      modifies this
      ensures Sound(trace, w) && ControlClosed !in trace && Commands(trace) == old(Commands(trace))
      ensures r ==
        if !w.copies || w.replies(old(received)).None? then Failed
        else if 200 <= Code(w, old(received)) <= 299 then Finished(Success)
        else Finished(OutcomeOf(Code(w, old(received))))
      ensures r == Finished(Success) ==> ClosedThenConfirmed(trace)
      ensures !r.Streaming? && SameDials(old(trace), trace)
    {
      hide Commands, Codes, AllJustified, ReadsReplies, DialsPeer;
      if !w.copies {
        return Failed;
      }
      Log(DataClosed);
      var reply := Receive();
      if reply.None? {
        return Failed;
      }
      if reply.value.code < 200 || reply.value.code > 299 {
        return Finished(OutcomeOf(reply.value.code));
      }
      ghost var i := |trace| - 2;
      assert trace[i] == DataClosed && trace[i + 1].Got?;
      return Finished(Success);
    }

    // From the greeting to the port to dial.
    method Prepare(ghost transfer: string) returns (done: Option<Operated>, port: nat)
      requires Live() && NoData(trace) && Commands(trace) == [] && received == 0
      requires w.target.Some? && w.controlDials
      modifies this
      ensures Sound(trace, w) && NoData(trace) && ControlClosed !in trace && FollowsScript(trace, transfer)
      ensures Commands(trace) != [] <==> Greeted(w)
      ensures done.None? <==> Prepared(w)
      ensures done == if Prepared(w) then None
                      else Some(if LoginRefusal(w).Some? then Finished(OutcomeOf(LoginRefusal(w).value)) else Failed)
      ensures Prepared(w) ==> LoginRefusal(w).None?
      ensures done.None? ==>
        && Live() && 1 <= port <= 65535 && PassivePort(w).value.0 == port
        && Commands(trace) + [transfer] == Script(Asked(w) == 1, PassivePort(w).value.1 == 1, transfer)
        && sent == 3 + Asked(w) + PassivePort(w).value.1 && received == 1 + sent
        && (trace[|trace| - 1] == Got(229) || trace[|trace| - 1] == Got(227))
    {
      hide Sound, NoData, Codes, Commands, PassivePort, LoggedIn, LoginRefusal, OutcomeOf;
      port := 0;
      done := Login();
      if done.Some? {
        assert Commands(trace) <= Script(true, true, transfer);
        return;
      }
      var ok := SetBinary();
      if !ok || w.peer.None? {
        assert Commands(trace) <= Script(Asked(w) == 1, true, transfer);
        return Some(Failed), 0;
      }
      var passive := Passive();
      if passive.None? {
        assert Commands(trace) <= Script(Asked(w) == 1, true, transfer);
        return Some(Failed), 0;
      }
      port := passive.value;
      assert Commands(trace) <= Script(Asked(w) == 1, PassivePort(w).value.1 == 1, transfer);
    }

    // The deferred closes, when nobody took the connections over.
    method CloseBoth(dataOpened: bool)
      requires Sound(trace, w)
      modifies this`trace
      ensures Sound(trace, w) && Commands(trace) == old(Commands(trace))
      ensures trace == old(trace) + (if dataOpened then [DataClosed] else []) + [ControlClosed]
    {
      hide ArgumentsFit, ReadsReplies, DialsPeer, Commands, Codes;
      if dataOpened {
        Log(DataClosed);
      }
      Log(ControlClosed);
    }

    // The part of operate between the control dial and the deferred closes.
    method Run(verb: string) returns (r: Operated, dataOpened: bool)
      requires Live() && NoData(trace) && Commands(trace) == [] && received == 0
      requires w.target.Some? && w.controlDials
      modifies this
      ensures Sound(trace, w) && ControlClosed !in trace && FollowsScript(trace, TransferCommand(verb))
      ensures Commands(trace) != [] <==> Greeted(w)
      ensures r == Returned(w, TransferCommand(verb))
      ensures r.Streaming? ==> dataOpened && DataClosed !in trace
      ensures r == Finished(Success) ==> ClosedThenConfirmed(trace)
      ensures dataOpened <==> (exists e :: e in trace && e.DataDialed? && e.ok)
    {
      hide Codes, Commands, AllJustified, ReadsReplies, TransferCommand, PassivePort, LoggedIn, LoginRefusal,
          OutcomeOf, Retrieves, Script, ClosedThenConfirmed;
      var done, port := Prepare(TransferCommand(verb));
      if done.Some? {
        return done.value, false;
      }
      var dial := DataDialed(w.peer.value, port, w.dataDials);
      Log(dial);
      assert dial in trace;
      if !w.dataDials {
        return Failed, false;
      }
      r := Transfer(verb, w.target.value);
      assert Commands(trace) <= Script(Asked(w) == 1, PassivePort(w).value.1 == 1, TransferCommand(verb));
      dataOpened := true;
    }
  }

  lemma MayTransfer(command: string, w: World, before: Event)
    requires Transfers(command) && w.target.Some? && before.DataDialed? && before.ok
    ensures Argument(command, w) == w.target.value && JustifiedBy(before, Sent(command, w.target.value))
  {}

  lemma ConfirmedStays(trace: seq<Event>, more: seq<Event>)
    ensures ClosedThenConfirmed(trace) ==> ClosedThenConfirmed(trace + more)
  {
    if ClosedThenConfirmed(trace) {
      var i :| 0 <= i < |trace| - 1 && trace[i] == DataClosed && trace[i + 1].Got? && 200 <= trace[i + 1].code <= 299;
      assert (trace + more)[i] == DataClosed && (trace + more)[i + 1] == trace[i + 1];
    }
  }

  lemma SoundOpens(trace: seq<Event>, w: World)
    requires Sound(trace, w)
    ensures trace != [] && ControlOpened in trace
  {}

  lemma ReturnedMeans(w: World, command: string)
    ensures Returned(w, command).Streaming? <==> TransferStarts(w) && Retrieves(command)
    ensures Returned(w, command) == Finished(Success) <==> Stores(w) && command == "STOR"
  {
    hide PassivePort;
  }

  // operate: its result, and the record of everything it did to the sockets.
  //
  // Whatever the server does, the commands follow the script, each justified
  // by what came just before it; the data connection is dialled at most once,
  // at the control peer's own address. Both sockets are closed on return
  // unless the result is a body that owns them. A body is returned exactly
  // when the server agreed to a retrieval, and a store succeeds exactly when
  // the server confirmed it.
  method Operate(w: World, verb: string) returns (r: Operated, trace: seq<Event>)
    ensures trace == [] || Sound(trace, w)
    ensures trace == [] <==> w.target.None? || !w.controlDials
    ensures FollowsScript(trace, TransferCommand(verb))
    ensures Commands(trace) != [] <==> Greeted(w)
    ensures forall e :: e in trace && e.Sent? && e.command !in ["USER", "PASS", "TYPE", "EPSV", "PASV"] ==>
      Requested(verb) == Some(e.command)
    ensures r.Streaming? ==> Requested(verb) == Some(r.command) && r.command in ["RETR", "LIST"]
    ensures r == Finished(Success) ==> Requested(verb) == Some("STOR")
    ensures r == Returned(w, TransferCommand(verb))
    ensures r.Streaming? <==> TransferStarts(w) && Retrieves(TransferCommand(verb))
    ensures r == Finished(Success) <==> Stores(w) && TransferCommand(verb) == "STOR"
    ensures r == Finished(Success) ==> ClosedThenConfirmed(trace)
    ensures ControlOpen(trace) <==> r.Streaming?
    ensures DataOpen(trace) <==> r.Streaming?
  {
    hide *;
    CommandIsRequested(verb);
    ReturnedMeans(w, TransferCommand(verb));
    OutcomesNamed(w, TransferCommand(verb));
    if w.target.None? || !w.controlDials {
      NothingDone(w, TransferCommand(verb));
      return Failed, [];
    }
    var c := new Conversation(w);
    var dataOpened: bool;
    r, dataOpened := c.Run(verb);
    if !r.Streaming? {
      ghost var before := c.trace;
      c.CloseBoth(dataOpened);
      BothClosed(before, dataOpened, c.trace);
    } else {
      BothOpen(c.trace, w);
    }
    trace := c.trace;
    SoundOpens(trace, w);
    forall e | e in trace && e.Sent? && e.command !in ["USER", "PASS", "TYPE", "EPSV", "PASV"]
      ensures Requested(verb) == Some(e.command)
    {
      TransferIsScripted(trace, w, TransferCommand(verb), e);
    }
  }

  // What is sent beside the preparation is the transfer of the script.
  lemma TransferIsScripted(trace: seq<Event>, w: World, transfer: string, e: Event)
    requires Sound(trace, w) && FollowsScript(trace, transfer)
    requires e in trace && e.Sent? && e.command !in ["USER", "PASS", "TYPE", "EPSV", "PASV"]
    ensures e.command == transfer && Transfers(e.command)
  {
    SentCommandListed(trace, e);
    SentIsJustified(trace, w, e);
    hide Sound, Commands, Transfers;
    var pass, pasv :| Commands(trace) <= Script(pass, pasv, transfer);
    ScriptWords(pass, pasv, transfer, e.command);
  }

  lemma ScriptWords(pass: bool, pasv: bool, transfer: string, command: string)
    requires command in Script(pass, pasv, transfer)
    ensures command in ["USER", "PASS", "TYPE", "EPSV", "PASV"] || command == transfer
  {
  }

  lemma {:induction false} SentCommandListed(trace: seq<Event>, e: Event)
    requires e in trace && e.Sent?
    ensures e.command in Commands(trace)
  {
    var n := |trace| - 1;
    if e != trace[n] {
      SentCommandListed(trace[..n], e);
    }
  }

  lemma SentIsJustified(trace: seq<Event>, w: World, e: Event)
    requires Sound(trace, w) && e in trace && e.Sent?
    ensures e.command in ["USER", "PASS", "TYPE", "EPSV", "PASV"] || Transfers(e.command)
  {
    hide ReadsReplies, DialsPeer, ArgumentsFit;
    var i :| 0 <= i < |trace| && trace[i] == e;
    assert i > 0 && JustifiedBy(trace[i - 1], trace[i]);
  }

  lemma OutcomesNamed(w: World, command: string)
    ensures Returned(w, command).Streaming? ==>
      Transfers(command) && Returned(w, command).command == command && command in ["RETR", "LIST"]
    ensures Returned(w, command) == Finished(Success) ==> Transfers(command) && command == "STOR"
  {
    hide PassivePort, Prepared, LoginRefusal;
  }

  // The deferred closes leave neither connection open and keep the rest.
  lemma BothClosed(before: seq<Event>, dataOpened: bool, after: seq<Event>)
    requires dataOpened <==> exists e :: e in before && e.DataDialed? && e.ok
    requires after == before + (if dataOpened then [DataClosed] else []) + [ControlClosed]
    requires Commands(after) == Commands(before)
    ensures !ControlOpen(after) && !DataOpen(after)
    ensures forall transfer :: FollowsScript(before, transfer) ==> FollowsScript(after, transfer)
    ensures ClosedThenConfirmed(before) ==> ClosedThenConfirmed(after)
  {
    hide Commands, Script;
    var more := (if dataOpened then [DataClosed] else []) + [ControlClosed];
    assert after == before + more && ControlClosed in more;
    ConfirmedStays(before, more);
  }

  lemma BothOpen(trace: seq<Event>, w: World)
    requires Sound(trace, w) && ControlClosed !in trace && DataClosed !in trace
    requires exists e :: e in trace && e.DataDialed? && e.ok
    ensures ControlOpen(trace) && DataOpen(trace)
  {}

  lemma NothingDone(w: World, command: string)
    requires w.target.None? || !w.controlDials
    ensures Returned(w, command) == Failed && !Greeted(w) && FollowsScript([], command) && Commands([]) == []
    ensures !ControlOpen([]) && !DataOpen([]) && !(TransferStarts(w) && Retrieves(command)) &&
        !(Stores(w) && command == "STOR")
  {
    assert Commands([]) <= Script(true, true, command);
  }

  // A server that greets with 421, service not available, is sent USER all the
  // same.
  method RefusingGreeting() returns (w: World, trace: seq<Event>)
    ensures w.replies(0) == Some(Reply(421, "421 Closing")) && Sound(trace, w)
    ensures Sent("USER", "anonymous") in trace
  {
    w := World(Some("/file"), true, Some("192.0.2.1"), (n: nat) => if n == 0 then Some(Reply(421, "421 Closing"))
        else None, _ => true, false, false);
    var r;
    r, trace := Operate(w, "GET");
    UserFirst(trace, w, TransferCommand("GET"));
  }

  lemma UserFirst(trace: seq<Event>, w: World, transfer: string)
    requires FollowsScript(trace, transfer) && Commands(trace) != [] && ArgumentsFit(trace, w)
    ensures Sent("USER", "anonymous") in trace
  {
    assert Commands(trace)[0] == "USER";
    CommandsAreSent(trace, "USER");
  }

  lemma {:induction false} CommandsAreSent(trace: seq<Event>, command: string)
    requires command in Commands(trace)
    ensures exists e :: e in trace && e.Sent? && e.command == command
  {
    var last := trace[|trace| - 1];
    if last.Sent? && last.command == command {
      assert last in trace;
    } else {
      CommandsAreSent(trace[..|trace| - 1], command);
    }
  }
}
