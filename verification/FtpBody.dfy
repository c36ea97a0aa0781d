// The streaming body of an FTP retrieval, which owns both connections.
module FtpBody {
  import opened Wrappers

  datatype DataError = NoError | EndOfData | Broken

  // What the world does during one Read: how many bytes the data connection
  // yields, how that read ends, whether the context is done by then, and the
  // code of the completion reply should it be read.
  datatype Weather = Weather(bytes: nat, err: DataError, cancelled: bool, completion: Option<int>)

  datatype BodyError = Fine | ClosedPipe | Cancelled | DataFailed | CompletionFailed | Rejected(code: int) | EOF

  datatype Delivered = Delivered(bytes: string, err: BodyError)

  datatype State = State(
    stream: string,     // what the data connection has yet to deliver
    closed: bool,
    dataOpen: bool,
    controlOpen: bool)

  // A data connection yields what it has, in order, and ends only at its end.
  predicate Possible(s: State, w: Weather) {
    w.bytes <= |s.stream| && (w.err.EndOfData? ==> w.bytes == |s.stream|)
  }

  function Finished(s: State): State {
    s.(closed := true, dataOpen := false, controlOpen := false)
  }

  function AfterRead(s: State, w: Weather): (State, Delivered)
    requires Possible(s, w)
  {
    if s.closed then (s, Delivered("", ClosedPipe))
    else
      var bytes := s.stream[..w.bytes];
      var s := s.(stream := s.stream[w.bytes..]);
      if w.err.NoError? then (s, Delivered(bytes, Fine))
      else if w.cancelled then (Finished(s), Delivered(bytes, Cancelled))
      else if w.err.Broken? then (Finished(s), Delivered(bytes, DataFailed))
      else
        match w.completion
        case None => (Finished(s), Delivered(bytes, CompletionFailed))
        case Some(code) =>
          if code < 200 || code > 299 then (Finished(s), Delivered(bytes, Rejected(code)))
          else (Finished(s), Delivered(bytes, EOF))
  }

  class TransferBody {
    var stream: string
    var closed: bool
    var dataOpen: bool
    var controlOpen: bool
    var finishOnce: bool

    ghost function View(): State
      reads this
    {
      State(stream, closed, dataOpen, controlOpen)
    }

    ghost predicate Valid()
      reads this
    {
      finishOnce == closed && (closed ==> !dataOpen && !controlOpen)
    }

    // A body takes over two open connections.
    constructor (stream: string)
      ensures Valid() && View() == State(stream, false, true, true)
    {
      this.stream, closed, dataOpen, controlOpen, finishOnce := stream, false, true, true, false;
    }

    method Read(w: Weather) returns (read: string, err: BodyError)
      requires Valid() && Possible(View(), w)
      modifies this
      ensures Valid() && (View(), Delivered(read, err)) == AfterRead(old(View()), w)
    {
      if closed {
        return "", ClosedPipe;
      }
      read := stream[..w.bytes];
      stream := stream[w.bytes..];
      if w.err.NoError? {
        return read, Fine;
      }
      if w.cancelled {
        Finish();
        return read, Cancelled;
      }
      if w.err.Broken? {
        Finish();
        return read, DataFailed;
      }
      dataOpen := false;
      if w.completion.None? {
        Finish();
        return read, CompletionFailed;
      }
      var code := w.completion.value;
      if code < 200 || code > 299 {
        Finish();
        return read, Rejected(code);
      }
      Finish();
      return read, EOF;
    }

    method Close()
      requires Valid()
      modifies this
      ensures Valid() && View() == Finished(old(View()))
    {
      Finish();
    }

    method Finish()
      requires finishOnce == closed && (closed ==> !dataOpen && !controlOpen)
      modifies this`finishOnce, this`closed, this`dataOpen, this`controlOpen
      ensures Valid() && View() == Finished(old(View()))
    {
      if !finishOnce {
        finishOnce := true;
        closed := true;
        dataOpen := false;
        controlOpen := false;
      }
    }
  }

  // ---- Whole runs: any sequence of calls ----

  datatype Call = Read(w: Weather) | Close

  datatype Turn = Turn(before: State, call: Call, delivered: Delivered, after: State)

  // One call and what it did; Close delivers nothing.
  ghost predicate IsTurn(t: Turn) {
    match t.call
    case Close => t.delivered == Delivered("", Fine) && t.after == Finished(t.before)
    case Read(w) => Possible(t.before, w) && (t.after, t.delivered) == AfterRead(t.before, w)
  }

  ghost predicate IsRun(turns: seq<Turn>, stream: string) {
    && (turns != [] ==> turns[0].before == State(stream, false, true, true))
    && (forall i :: 0 <= i < |turns| ==> IsTurn(turns[i]))
    && forall i :: 0 < i < |turns| ==> turns[i].before == turns[i - 1].after
  }

  function Bytes(turns: seq<Turn>): string {
    if turns == [] then "" else Bytes(turns[..|turns| - 1]) + turns[|turns| - 1].delivered.bytes
  }

  ghost predicate Settled(s: State) {
    s.closed ==> !s.dataOpen && !s.controlOpen
  }

  lemma {:induction false} RunSettled(turns: seq<Turn>, stream: string, n: nat)
    requires IsRun(turns, stream) && n < |turns|
    ensures Settled(turns[n].before) && Settled(turns[n].after)
  {
    if n > 0 {
      RunSettled(turns, stream, n - 1);
    }
  }

  lemma {:induction false} ClosedForEver(turns: seq<Turn>, stream: string, i: nat, j: nat)
    requires IsRun(turns, stream) && i < j < |turns| && turns[i].after.closed
    ensures turns[j].before.closed && turns[j].after.closed
    decreases j
  {
    if i + 1 < j {
      ClosedForEver(turns, stream, i, j - 1);
    }
  }

  // Any error leaves both connections closed, then and after every later call.
  lemma ErrorClosesBoth(turns: seq<Turn>, stream: string, i: nat, j: nat)
    requires IsRun(turns, stream) && i <= j < |turns| && turns[i].delivered.err != Fine
    ensures !turns[j].after.dataOpen && !turns[j].after.controlOpen
  {
    RunSettled(turns, stream, i);
    RunSettled(turns, stream, j);
    assert IsTurn(turns[i]);
    if i < j {
      ClosedForEver(turns, stream, i, j);
    }
  }

  // End of file is reported only when the server confirmed the transfer.
  lemma EOFIsConfirmed(turns: seq<Turn>, stream: string, i: nat)
    requires IsRun(turns, stream) && i < |turns| && turns[i].delivered.err == EOF
    ensures turns[i].call.Read? && var w := turns[i].call.w;
            w.err.EndOfData? && !w.cancelled && w.completion.Some? && 200 <= w.completion.value <= 299
  {
    assert IsTurn(turns[i]);
  }

  // What a read of an open body reports: end of file exactly when the data ended,
  // the context stands and the server sent a 2xx completion, and otherwise the
  // first thing that went wrong.
  lemma ReadReports(s: State, w: Weather)
    requires Possible(s, w) && !s.closed
    ensures var err := AfterRead(s, w).1.err;
      && (err == Fine <==> w.err == NoError)
      && (err == Cancelled <==> w.err != NoError && w.cancelled)
      && (err == DataFailed <==> w.err == Broken && !w.cancelled)
      && (err == CompletionFailed <==> w.err == EndOfData && !w.cancelled && w.completion == None)
      && (err == EOF <==>
            w.err == EndOfData && !w.cancelled && w.completion.Some? && 200 <= w.completion.value <= 299)
      && (err.Rejected? <==>
            w.err == EndOfData && !w.cancelled && w.completion.Some? && !(200 <= w.completion.value <= 299))
      && (err.Rejected? ==> w.completion == Some(err.code))
  {
  }

  // It is reported at most once: later reads say the pipe is closed.
  lemma EOFOnce(turns: seq<Turn>, stream: string, i: nat, j: nat)
    requires IsRun(turns, stream) && i < j < |turns| && turns[i].delivered.err == EOF
    ensures turns[j].delivered == Delivered("", if turns[j].call.Close? then Fine else ClosedPipe)
  {
    assert IsTurn(turns[i]) && IsTurn(turns[j]);
    ClosedForEver(turns, stream, i, j);
  }

  lemma TurnConserves(t: Turn)
    requires IsTurn(t)
    ensures t.delivered.bytes + t.after.stream == t.before.stream
  {
  }

  // Nothing is lost or repeated: what was delivered, then what the data
  // connection still holds, is the stream.
  lemma {:induction false} BytesConserved(turns: seq<Turn>, stream: string)
    requires turns != [] && IsRun(turns, stream)
    ensures Bytes(turns) + turns[|turns| - 1].after.stream == stream
  {
    hide IsTurn;
    var front, t := turns[..|turns| - 1], turns[|turns| - 1];
    TurnConserves(t);
    var before, got, left := Bytes(front), t.delivered.bytes, t.after.stream;
    assert Bytes(turns) == before + got;
    assert (before + got) + left == before + (got + left);
    if front == [] {
      assert before == "" && before + (got + left) == got + left;
    } else {
      assert IsRun(front, stream);
      BytesConserved(front, stream);
      assert front[|front| - 1] == turns[|turns| - 2];
    }
  }

  // By the time end of file is reported, exactly the data stream was delivered.
  lemma EOFDeliveredAll(turns: seq<Turn>, stream: string, i: nat)
    requires IsRun(turns, stream) && i < |turns| && turns[i].delivered.err == EOF
    ensures Bytes(turns[..i + 1]) == stream
  {
    assert IsTurn(turns[i]);
    BytesConserved(turns[..i + 1], stream);
  }
}
