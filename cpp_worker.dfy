/** The C++ worker (JS/worker.cpp). Its only state is the counter queue_len. Each connection
    is one read, parsed with a string stream: PROBE reports the counter, and ASSIGN and
    REQUEST each start a detached execute_task thread and increment the counter. CANCEL only
    answers. The counter is decremented when a thread's sleep ends. The model runs the
    handler and the end of a thread as separate sequential steps. It records the unfinished
    threads by duration, so the counter is always their number. */
module CppWorker {
  import opened Text

  /** What handle_client makes of one read. */
  datatype Command =
    | Closed                     // read returned 0 or an error: the socket is just closed
    | Probe
    | Assign(dur: int)           // dur starts at 0 and keeps it when nothing is extracted
    | Cancel
    | Request(given: Option<int>)  // None: `int dur;` was never written (indeterminate)
    | Unrecognised               // any other first word, or no word at all

  /** The request as a C string: buf[n] = 0 ends it at the first NUL byte read. */
  function CString(data: string): (s: string)
    ensures StartsWith(data, s) && '\0' !in s
    ensures '\0' !in data ==> s == data
  {
    var i := IndexOf(data, '\0');
    assert i < |data| ==> data[i] in data;
    data[..i]
  }

  /** The command handle_client reads from what one read returned (empty when n <= 0). */
  function Decode(data: string): (c: Command)
    ensures data == [] <==> c == Closed
    ensures c.Assign? ==> IntMin <= c.dur <= IntMax
    ensures c.Request? && c.given.Some? ==> IntMin <= c.given.value <= IntMax
  {
    if data == [] then Closed
    else
      var (cmd, rest) := ReadWord(CString(data));
      Dispatch(cmd, rest)
  }

  /** The if-chain on the first word cmd, with rest what the stream has left after it. */
  function Dispatch(cmd: string, rest: string): (c: Command)
    ensures c != Closed
    ensures c.Assign? ==> IntMin <= c.dur <= IntMax
    ensures c.Request? && c.given.Some? ==> IntMin <= c.given.value <= IntMax
  {
    if cmd == "PROBE" then Probe
    else if cmd == "ASSIGN" then Assign(match ExtractInt(rest) case Some(v) => v case None => 0)
    else if cmd == "CANCEL" then Cancel
    else if cmd == "REQUEST" then Request(ExtractInt(rest))
    else Unrecognised
  }

  /** One of the four command words. */
  predicate IsCommandWord(w: string)
  {
    w == "PROBE" || w == "ASSIGN" || w == "CANCEL" || w == "REQUEST"
  }

  /** A read that holds no NUL and starts with a command word w followed by whitespace (or
      nothing) is dispatched on w. */
  lemma DecodeOf(w: string, rest: string)
    requires IsCommandWord(w) && '\0' !in rest
    requires rest == [] || IsBlank(CLocale, rest[0])
    ensures Decode(w + rest) == Dispatch(w, rest)
  {
    assert IsWord(CLocale, w) && '\0' !in w;
    assert '\0' !in w + rest by {
      forall i | 0 <= i < |w + rest|
        ensures (w + rest)[i] != '\0'
      {
        if i < |w| {
          assert (w + rest)[i] == w[i];
        } else {
          assert (w + rest)[i] == rest[i - |w|] && rest[i - |w|] in rest;
        }
      }
    }
    ReadWordOfWord(w, rest);
  }

  /** The decimal form of an integer holds no NUL. */
  lemma NoNulInInt(d: int)
    ensures '\0' !in IntToString(d)
  {
    var s := IntToString(d);
    if s[0] == '-' {
      assert s[1..] == NatToString(-d);
    }
    assert forall i :: 0 <= i < |s| ==> s[i] == '-' || IsDigit(s[i]);
  }

  /** What is written back for c when queue_len is q; None when nothing is written. */
  function Reply(c: Command, q: int): (r: Option<string>)
    ensures r.Some? <==> c.Probe? || c.Assign? || c.Cancel? || c.Request?
    ensures r.Some? ==> |r.value| >= 2 && r.value[|r.value| - 1] == '\n'
  {
    match c
    case Probe => Some("Q " + IntToString(q) + "\n")
    case Assign(_) => Some("OK\n")
    case Cancel => Some("CANCELLED\n")
    case Request(_) => Some("START\n")
    case _ => None
  }

  /** The execute_task threads c starts, by duration. */
  function Spawned(c: Command): (ts: seq<Option<int>>)
    ensures |ts| == (if c.Assign? || c.Request? then 1 else 0)
    ensures c.Assign? ==> ts == [Some(c.dur)]
  {
    match c
    case Assign(d) => [Some(d)]
    case Request(d) => [d]
    case _ => []
  }

  class Worker {
    /** queue_len. */
    var queueLen: int
    /** The execute_task threads still sleeping, by duration. */
    var tasks: seq<Option<int>>

    /** queue_len counts the unfinished tasks, so it is never negative. */
    predicate Valid()
      reads this
    {
      queueLen == |tasks|
    }

    constructor()
      ensures Valid() && tasks == []
    {
      queueLen := 0;
      tasks := [];
    }

    /** handle_client on one connection, given what read returned. */
    method HandleClient(data: string) returns (reply: Option<string>)
      requires Valid()
      modifies this
      ensures Valid()
      ensures reply == Reply(Decode(data), old(queueLen))
      ensures tasks == old(tasks) + Spawned(Decode(data))
    {
      reply := Execute(Decode(data));
    }

    /** What handle_client does for the command c: reply, and start a task for ASSIGN
        and REQUEST. */
    method Execute(c: Command) returns (reply: Option<string>)
      requires Valid()
      modifies this
      ensures Valid()
      ensures reply == Reply(c, old(queueLen))
      ensures tasks == old(tasks) + Spawned(c)
    {
      match c {
        case Probe =>
          reply := Some("Q " + IntToString(queueLen) + "\n");
        case Assign(dur) =>
          queueLen := queueLen + 1;
          tasks := tasks + [Some(dur)];
          reply := Some("OK\n");
        case Cancel =>
          reply := Some("CANCELLED\n");
        case Request(dur) =>
          queueLen := queueLen + 1;
          tasks := tasks + [dur];
          reply := Some("START\n");
        case _ =>
          reply := None;
      }
    }

    /** The sleep of the k-th unfinished execute_task thread ends. */
    method FinishTask(k: nat)
      requires Valid() && k < |tasks|
      modifies this
      ensures Valid()
      ensures queueLen == old(queueLen) - 1 >= 0
      ensures tasks == old(tasks[..k] + tasks[k + 1..])
    {
      tasks := tasks[..k] + tasks[k + 1..];
      queueLen := queueLen - 1;
    }
  }

  // ---------------------------------------------------------------- the wire format

  /** A message a scheduler sends: words joined by spaces, ended by a newline. */
  function Message(words: seq<string>): string
  {
    Unwords(words) + "\n"
  }

  /** A command word alone on a line is read as that word. */
  lemma DecodeWord(w: string)
    requires w == "PROBE" || w == "CANCEL"
    ensures Decode(Message([w])) == (if w == "PROBE" then Probe else Cancel)
  {
    DecodeOf(w, "\n");
  }

  /** "ASSIGN <d>", as the batch scheduler sends it, starts a task of duration d. */
  lemma DecodeAssign(d: int)
    requires IntMin <= d <= IntMax
    ensures Decode(Message(["ASSIGN", IntToString(d)])) == Assign(d)
  {
    var s := IntToString(d);
    var rest := " " + s + "\n";
    assert ["ASSIGN", s][1..] == [s];
    assert Unwords(["ASSIGN", s]) == "ASSIGN" + " " + s;
    assert Message(["ASSIGN", s]) == "ASSIGN" + rest;
    NoNulInInt(d);
    DecodeOf("ASSIGN", rest);
    ExtractIntOfIntToString(d, " ", "\n");
  }

  /** "REQUEST <d>", as the late-binding scheduler sends it, starts a task of duration d. */
  lemma DecodeRequest(d: int)
    requires IntMin <= d <= IntMax
    ensures Decode(Message(["REQUEST", IntToString(d)])) == Request(Some(d))
  {
    var s := IntToString(d);
    var rest := " " + s + "\n";
    assert ["REQUEST", s][1..] == [s];
    assert Unwords(["REQUEST", s]) == "REQUEST" + " " + s;
    assert Message(["REQUEST", s]) == "REQUEST" + rest;
    NoNulInInt(d);
    DecodeOf("REQUEST", rest);
    ExtractIntOfIntToString(d, " ", "\n");
  }

  /** ASSIGN with no duration, or with one that does not start with a number, still starts
      a task, of duration 0, and is answered OK. */
  lemma AssignWithoutNumber(rest: string)
    requires '\0' !in rest
    requires rest == [] || IsBlank(CLocale, rest[0])
    requires LeadingInt(TrimStart(CLocale, rest)) == None
    ensures Decode("ASSIGN" + rest) == Assign(0)
  {
    DecodeOf("ASSIGN", rest);
  }

  /** REQUEST with nothing after it starts a task whose duration is never written. */
  lemma RequestWithoutDuration(blanks: string)
    requires AllBlank(CLocale, blanks)
    ensures Decode("REQUEST" + blanks) == Request(None)
  {
    assert '\0' !in blanks by {
      assert forall i :: 0 <= i < |blanks| ==> blanks[i] != '\0';
    }
    assert blanks == [] || IsBlank(CLocale, blanks[0]);
    DecodeOf("REQUEST", blanks);
  }

  /** The number in a PROBE reply is read back by atoi from offset 2, as the batch
      scheduler does. */
  lemma ProbeReplyReadsBack(q: int)
    ensures Atoi(Reply(Probe, q).value[2..]) == q
  {
    assert Reply(Probe, q).value[2..] == IntToString(q) + "\n";
    AtoiOfIntToString(q, "\n");
  }
}
