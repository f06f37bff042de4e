/** The `ccdputs` Tcl command of CCDPACK (`ccdputs.c`): its flag parsing,
    the argument-count check, and the record it writes up the pipe to the
    parent process (or the line it prints when free-standing).

    The arguments are the Tcl words after the command name: `objc` is
    one more than their number and `objv[i]` is word `i - 1`. */
module CcdPuts {
  import opened Common

  /** The kinds of message: plain (`CCD_CCDMSG`), logged (`CCD_CCDLOG`)
      and error (`CCD_CCDERR`). */
  datatype MsgType = CcdMsg | CcdLog | CcdErr

  /** The usage string returned for an unknown flag. */
  const Usage: string := "ccdputs ?-error? ?-log? ?-name name? message"

  /** The message name used when no `-name` flag is given. */
  const DefaultName: string := " "

  /** The flag loop's test on a word: its first character is `-` (an
      empty word has only its NUL). */
  predicate StartsWithDash(s: string) {
    |s| > 0 && s[0] == '-'
  }

  /** How the flag scan ended: at the first non-flag word, after `used`
      flag words, with the type and name chosen; at an unknown flag; or by
      reading a word past the end of `objv`. */
  datatype FlagScan = Stopped(used: nat, stype: MsgType, name: string) | UnknownFlag | PastEnd

  /** The bounds checking of the flag scan: none as written; corrected,
      the scan stops at `objc` and a `-name` with no following word ends
      it. */
  datatype Guard = AsWritten | Corrected

  /** Counts `n` more flag words in a scan that stopped. */
  function Shift(r: FlagScan, n: nat): FlagScan {
    if r.Stopped? then r.(used := r.used + n) else r
  }

  /** The flag loop over the words `ws`: `-log` and `-error` set the
      type, `-name` takes the next word as the name, any other word
      starting with `-` is an error, and the first word that does not
      start with `-` ends the scan. */
  function ScanFlags(ws: seq<string>, stype: MsgType, name: string, g: Guard): (r: FlagScan)
    ensures r.Stopped? ==> r.used <= |ws|
    ensures r.Stopped? && r.used < |ws| ==> !StartsWithDash(ws[r.used])
    ensures r.PastEnd? ==> g.AsWritten?
    decreases |ws|
  {
    if |ws| == 0 then (if g.Corrected? then Stopped(0, stype, name) else PastEnd)
    else if !StartsWithDash(ws[0]) then Stopped(0, stype, name)
    else if ws[0] == "-log" then Shift(ScanFlags(ws[1..], CcdLog, name, g), 1)
    else if ws[0] == "-error" then Shift(ScanFlags(ws[1..], CcdErr, name, g), 1)
    else if ws[0] == "-name" then
      if |ws| == 1 then (if g.Corrected? then Stopped(1, stype, name) else PastEnd)
      else Shift(ScanFlags(ws[2..], stype, ws[1], g), 2)
    else UnknownFlag
  }

  /** What the command sends: a record up the pipe, or a line on
      standard output. */
  datatype Output = PipeRecord(bytes: seq<char>) | StdoutLine(text: string)

  /** The outcome of `CcdputsCmd`: `TCL_ERROR` with the usage string,
      `TCL_ERROR` from `Tcl_WrongNumArgs`, a read past the end of `objv`,
      or `TCL_OK` with the empty result after the output. */
  datatype Outcome = UsageError(result: string) | WrongArgs | ReadPastEnd | Done(out: Output, result: string)

  /** The pipe record: the bytes of the type word, the name, a newline,
      and the message with its terminating NUL. */
  function Record(typeBytes: seq<char>, name: string, msg: string): (rec: seq<char>)
    ensures |rec| == |typeBytes| + |name| + |msg| + 2
  {
    typeBytes + name + "\n" + msg + "\0"
  }

  /** The argument-count test: as written `objc + nflag == 2`;
      corrected, `objc - nflag == 2`. */
  predicate CountOk(objc: nat, nflag: nat, g: Guard) {
    if g == AsWritten then objc + nflag == 2 else objc - nflag == 2
  }

  /** `CcdputsCmd` for the words `args`, writing to the pipe when `pipe`
      holds; `typeBytes` gives the bytes of each type's integer code. */
  function Ccdputs(args: seq<string>, pipe: bool, typeBytes: MsgType -> seq<char>, g: Guard): (r: Outcome)
    ensures r.UsageError? ==> r.result == Usage
    ensures r.Done? ==> r.result == ""
    ensures r.ReadPastEnd? ==> g == AsWritten
  {
    match ScanFlags(args, CcdMsg, DefaultName, g)
    case UnknownFlag => UsageError(Usage)
    case PastEnd => ReadPastEnd
    case Stopped(nflag, stype, name) =>
      if !CountOk(|args| + 1, nflag, g) then WrongArgs
      else
        // the message is objv[1 + nflag], the word the scan stopped at
        var msg := args[nflag];
        if pipe then Done(PipeRecord(Record(typeBytes(stype), name, msg)), "")
        else Done(StdoutLine(msg + "\n"), "")
  }

  // ---------------------------------------------------------------------
  // The reference: options as a caller writes them
  // ---------------------------------------------------------------------

  /** A flag as a caller writes it. */
  datatype Opt = LogOpt | ErrorOpt | NameOpt(name: string)

  /** The words of a list of options. */
  function Render(opts: seq<Opt>): seq<string>
    decreases |opts|
  {
    if |opts| == 0 then []
    else
      var w := match opts[0]
               case LogOpt => ["-log"]
               case ErrorOpt => ["-error"]
               case NameOpt(n) => ["-name", n];
      w + Render(opts[1..])
  }

  /** The type after one option. */
  function TypeStep(o: Opt, t: MsgType): MsgType {
    match o
    case LogOpt => CcdLog
    case ErrorOpt => CcdErr
    case NameOpt(_) => t
  }

  /** The name after one option. */
  function NameStep(o: Opt, n: string): string {
    match o
    case NameOpt(m) => m
    case _ => n
  }

  /** The type after the options, starting from `t`. */
  function TypeOf(opts: seq<Opt>, t: MsgType): MsgType
    decreases |opts|
  {
    if |opts| == 0 then t else TypeOf(opts[1..], TypeStep(opts[0], t))
  }

  /** The name after the options, starting from `n`. */
  function NameOf(opts: seq<Opt>, n: string): string
    decreases |opts|
  {
    if |opts| == 0 then n else NameOf(opts[1..], NameStep(opts[0], n))
  }

  /** The last option decides: a trailing `-log` or `-error` sets the
      type whatever came before, a trailing `-name` keeps it; and
      symmetrically for the name. */
  lemma {:induction false} LastOptionWins(opts: seq<Opt>, o: Opt, t: MsgType, n: string)
    ensures TypeOf(opts + [o], t) == TypeStep(o, TypeOf(opts, t))
    ensures NameOf(opts + [o], n) == NameStep(o, NameOf(opts, n))
    decreases |opts|
  {
    if |opts| == 0 {
      assert [o][1..] == [];
    } else {
      assert (opts + [o])[1..] == opts[1..] + [o];
      LastOptionWins(opts[1..], o, TypeStep(opts[0], t), NameStep(opts[0], n));
    }
  }

  /** One option at the front of the words is consumed by the scan. */
  lemma ScanOne(o: Opt, tail: seq<string>, t: MsgType, n: string, g: Guard)
    ensures ScanFlags(Render([o]) + tail, t, n, g)
            == Shift(ScanFlags(tail, TypeStep(o, t), NameStep(o, n), g), |Render([o])|)
  {
    var w := Render([o]) + tail;
    assert Render([o]) == Render([o][..1]) && [o][1..] == [];
    match o
    case LogOpt =>
      assert Render([o]) == ["-log"];
      assert w[0] == "-log" && w[1..] == tail;
    case ErrorOpt =>
      assert Render([o]) == ["-error"];
      assert w[0] == "-error" && w[1..] == tail;
    case NameOpt(m) =>
      assert Render([o]) == ["-name", m];
      assert w[0] == "-name" && w[1] == m && w[2..] == tail;
  }

  /** Scanning rendered options followed by further words consumes
      exactly the options and continues with their type and name. */
  lemma {:induction false} ScanRendered(opts: seq<Opt>, rest: seq<string>, t: MsgType, n: string, g: Guard)
    ensures ScanFlags(Render(opts) + rest, t, n, g)
            == Shift(ScanFlags(rest, TypeOf(opts, t), NameOf(opts, n), g), |Render(opts)|)
    decreases |opts|
  {
    if |opts| == 0 {
      assert Render(opts) + rest == rest;
      var r := ScanFlags(rest, t, n, g);
      assert Shift(r, 0) == r;
    } else {
      var o := opts[0];
      var tail := Render(opts[1..]) + rest;
      assert Render([o]) == Render([o][..1]) && [o][1..] == [];
      assert Render(opts) == Render([o]) + Render(opts[1..]);
      assert Render(opts) + rest == Render([o]) + tail;
      ScanOne(o, tail, t, n, g);
      ScanRendered(opts[1..], rest, TypeStep(o, t), NameStep(o, n), g);
    }
  }

  /** With the count test corrected, options followed by a message that
      does not start with `-` deliver the message with the type and name
      of the last options given. */
  lemma CorrectedDelivers(opts: seq<Opt>, msg: string, pipe: bool, typeBytes: MsgType -> seq<char>)
    requires !StartsWithDash(msg)
    ensures var t := TypeOf(opts, CcdMsg);
            var n := NameOf(opts, DefaultName);
            Ccdputs(Render(opts) + [msg], pipe, typeBytes, Corrected)
            == Done(if pipe then PipeRecord(Record(typeBytes(t), n, msg)) else StdoutLine(msg + "\n"), "")
  {
    ScanRendered(opts, [msg], CcdMsg, DefaultName, Corrected);
    var args := Render(opts) + [msg];
    assert args[|Render(opts)|] == msg;
  }

  /** As written, the count test `objc + nflag == 2` rejects every call
      with a flag: options followed by a message give `WrongArgs` as soon
      as there is one option, and only the bare message is delivered. */
  lemma AsWrittenRejectsFlags(opts: seq<Opt>, msg: string, pipe: bool, typeBytes: MsgType -> seq<char>)
    requires !StartsWithDash(msg)
    ensures |opts| >= 1 ==> Ccdputs(Render(opts) + [msg], pipe, typeBytes, AsWritten) == WrongArgs
    ensures |opts| == 0 ==> Ccdputs(Render(opts) + [msg], pipe, typeBytes, AsWritten)
                            == Ccdputs(Render(opts) + [msg], pipe, typeBytes, Corrected)
  {
    ScanRendered(opts, [msg], CcdMsg, DefaultName, AsWritten);
    ScanRendered(opts, [msg], CcdMsg, DefaultName, Corrected);
    if |opts| >= 1 {
      assert |Render(opts)| >= 1;
    }
  }

  /** As written, a call whose words are all flags reads the word past
      the end of `objv`; corrected it is a wrong-count error. */
  lemma AsWrittenReadsPastEnd(opts: seq<Opt>, pipe: bool, typeBytes: MsgType -> seq<char>)
    ensures Ccdputs(Render(opts), pipe, typeBytes, AsWritten) == ReadPastEnd
    ensures Ccdputs(Render(opts), pipe, typeBytes, Corrected) == WrongArgs
  {
    ScanRendered(opts, [], CcdMsg, DefaultName, AsWritten);
    ScanRendered(opts, [], CcdMsg, DefaultName, Corrected);
    assert Render(opts) + [] == Render(opts);
  }

  /** An unknown word starting with `-` after some options is a usage
      error, whatever follows. */
  lemma UnknownFlagIsUsage(opts: seq<Opt>, w: string, rest: seq<string>, pipe: bool,
                           typeBytes: MsgType -> seq<char>, g: Guard)
    requires StartsWithDash(w) && w != "-log" && w != "-error" && w != "-name"
    ensures Ccdputs(Render(opts) + ([w] + rest), pipe, typeBytes, g) == UsageError(Usage)
  {
    ScanRendered(opts, [w] + rest, CcdMsg, DefaultName, g);
  }

  // ---------------------------------------------------------------------
  // Reading the pipe record back
  // ---------------------------------------------------------------------

  /** How the parent reads a record whose type word has `width` bytes:
      the type bytes, the name up to the first newline, and the message
      up to its NUL, which must end the record. */
  function DecodeRecord(rec: seq<char>, width: nat): Option<(seq<char>, string, string)> {
    if |rec| < width then None
    else
      var body := rec[width..];
      match IndexOf(body, '\n')
      case None => None
      case Some(j) =>
        var m := body[j + 1..];
        if |m| >= 1 && m[|m| - 1] == '\0' && NoNul(m[..|m| - 1]) then Some((rec[..width], body[..j], m[..|m| - 1]))
        else None
  }

  /** The record reads back as the type bytes, name and message written,
      for a name without a newline. */
  lemma RecordRoundTrip(typeBytes: seq<char>, name: string, msg: string)
    requires NoNewline(name) && NoNul(msg)
    ensures DecodeRecord(Record(typeBytes, name, msg), |typeBytes|) == Some((typeBytes, name, msg))
  {
    var rec := Record(typeBytes, name, msg);
    var body := rec[|typeBytes|..];
    assert body == name + "\n" + msg + "\0";
    assert body[|name|] == '\n';
    assert forall k :: 0 <= k < |name| ==> body[k] == name[k];
    var j := IndexOf(body, '\n');
    assert j == Some(|name|);
    var m := body[|name| + 1..];
    assert m == msg + "\0";
    assert m[..|m| - 1] == msg;
    assert rec[..|typeBytes|] == typeBytes;
    assert body[..|name|] == name;
  }
}
