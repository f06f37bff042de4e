/** FIO's generator of the Fortran include file ERRNO_ERR
    (`make-errno-err.c`): a fixed table of 124 errno names, each written
    as an INTEGER declaration and a PARAMETER statement holding the host's
    value, or a guessed value (with a comment saying so) when the host's
    errno.h does not define the name.

    The host's errno.h, `strerror`, the date and whether the file can be
    opened are parameters of the model. */
module ErrnoInc {
  import opened Common

  /** One errno name and the value written when the host lacks it. */
  datatype Entry = Entry(name: string, fallback: nat)


  /** The `k`-th name written (counting from 0) and its fallback value. */
  function EntryAt(k: nat): Entry
  {
    match k
    case 0 => Entry("EPERM", 1)
    case 1 => Entry("ENOENT", 2)
    case 2 => Entry("ESRCH", 3)
    case 3 => Entry("EINTR", 4)
    case 4 => Entry("EIO", 5)
    case 5 => Entry("ENXIO", 6)
    case 6 => Entry("E2BIG", 7)
    case 7 => Entry("ENOEXEC", 8)
    case 8 => Entry("EBADF", 9)
    case 9 => Entry("ECHILD", 10)
    case 10 => Entry("EAGAIN", 11)
    case 11 => Entry("ENOMEM", 12)
    case 12 => Entry("EACCES", 13)
    case 13 => Entry("EFAULT", 14)
    case 14 => Entry("ENOTBLK", 15)
    case 15 => Entry("EBUSY", 16)
    case 16 => Entry("EEXIST", 17)
    case 17 => Entry("EXDEV", 18)
    case 18 => Entry("ENODEV", 19)
    case 19 => Entry("ENOTDIR", 20)
    case 20 => Entry("EISDIR", 21)
    case 21 => Entry("EINVAL", 22)
    case 22 => Entry("ENFILE", 23)
    case 23 => Entry("EMFILE", 24)
    case 24 => Entry("ENOTTY", 25)
    case 25 => Entry("ETXTBSY", 26)
    case 26 => Entry("EFBIG", 27)
    case 27 => Entry("ENOSPC", 28)
    case 28 => Entry("ESPIPE", 29)
    case 29 => Entry("EROFS", 30)
    case 30 => Entry("EMLINK", 31)
    case 31 => Entry("EPIPE", 32)
    case 32 => Entry("EDOM", 33)
    case 33 => Entry("ERANGE", 34)
    case 34 => Entry("EDEADLK", 35)
    case 35 => Entry("ENAMETOOLONG", 36)
    case 36 => Entry("ENOLCK", 37)
    case 37 => Entry("ENOSYS", 38)
    case 38 => Entry("ENOTEMPTY", 39)
    case 39 => Entry("ELOOP", 40)
    case 40 => Entry("EWOULDBLOCK", 11)
    case 41 => Entry("ENOMSG", 42)
    case 42 => Entry("EIDRM", 43)
    case 43 => Entry("ECHRNG", 44)
    case 44 => Entry("EL2NSYNC", 45)
    case 45 => Entry("EL3HLT", 46)
    case 46 => Entry("EL3RST", 47)
    case 47 => Entry("ELNRNG", 48)
    case 48 => Entry("EUNATCH", 49)
    case 49 => Entry("ENOCSI", 50)
    case 50 => Entry("EL2HLT", 51)
    case 51 => Entry("EBADE", 52)
    case 52 => Entry("EBADR", 53)
    case 53 => Entry("EXFULL", 54)
    case 54 => Entry("ENOANO", 55)
    case 55 => Entry("EBADRQC", 56)
    case 56 => Entry("EBADSLT", 57)
    case 57 => Entry("EDEADLOCK", 35)
    case 58 => Entry("EBFONT", 59)
    case 59 => Entry("ENOSTR", 60)
    case 60 => Entry("ENODATA", 61)
    case 61 => Entry("ETIME", 62)
    case 62 => Entry("ENOSR", 63)
    case 63 => Entry("ENONET", 64)
    case 64 => Entry("ENOPKG", 65)
    case 65 => Entry("EREMOTE", 66)
    case 66 => Entry("ENOLINK", 67)
    case 67 => Entry("EADV", 68)
    case 68 => Entry("ESRMNT", 69)
    case 69 => Entry("ECOMM", 70)
    case 70 => Entry("EPROTO", 71)
    case 71 => Entry("EMULTIHOP", 72)
    case 72 => Entry("EDOTDOT", 73)
    case 73 => Entry("EBADMSG", 74)
    case 74 => Entry("EOVERFLOW", 75)
    case 75 => Entry("ENOTUNIQ", 76)
    case 76 => Entry("EBADFD", 77)
    case 77 => Entry("EREMCHG", 78)
    case 78 => Entry("ELIBACC", 79)
    case 79 => Entry("ELIBBAD", 80)
    case 80 => Entry("ELIBSCN", 81)
    case 81 => Entry("ELIBMAX", 82)
    case 82 => Entry("ELIBEXEC", 83)
    case 83 => Entry("EILSEQ", 84)
    case 84 => Entry("ERESTART", 85)
    case 85 => Entry("ESTRPIPE", 86)
    case 86 => Entry("EUSERS", 87)
    case 87 => Entry("ENOTSOCK", 88)
    case 88 => Entry("EDESTADDRREQ", 89)
    case 89 => Entry("EMSGSIZE", 90)
    case 90 => Entry("EPROTOTYPE", 91)
    case 91 => Entry("ENOPROTOOPT", 92)
    case 92 => Entry("EPROTONOSUPPORT", 93)
    case 93 => Entry("ESOCKTNOSUPPORT", 94)
    case 94 => Entry("EOPNOTSUPP", 95)
    case 95 => Entry("EPFNOSUPPORT", 96)
    case 96 => Entry("EAFNOSUPPORT", 97)
    case 97 => Entry("EADDRINUSE", 98)
    case 98 => Entry("EADDRNOTAVAIL", 99)
    case 99 => Entry("ENETDOWN", 100)
    case 100 => Entry("ENETUNREACH", 101)
    case 101 => Entry("ENETRESET", 102)
    case 102 => Entry("ECONNABORTED", 103)
    case 103 => Entry("ECONNRESET", 104)
    case 104 => Entry("ENOBUFS", 105)
    case 105 => Entry("EISCONN", 106)
    case 106 => Entry("ENOTCONN", 107)
    case 107 => Entry("ESHUTDOWN", 108)
    case 108 => Entry("ETOOMANYREFS", 109)
    case 109 => Entry("ETIMEDOUT", 110)
    case 110 => Entry("ECONNREFUSED", 111)
    case 111 => Entry("EHOSTDOWN", 112)
    case 112 => Entry("EHOSTUNREACH", 113)
    case 113 => Entry("EALREADY", 114)
    case 114 => Entry("EINPROGRESS", 115)
    case 115 => Entry("ESTALE", 116)
    case 116 => Entry("EUCLEAN", 117)
    case 117 => Entry("ENOTNAM", 118)
    case 118 => Entry("ENAVAIL", 119)
    case 119 => Entry("EISNAM", 120)
    case 120 => Entry("EREMOTEIO", 121)
    case 121 => Entry("EDQUOT", 122)
    case 122 => Entry("ENOMEDIUM", 123)
    case _ => Entry("EMEDIUMTYPE", 124)
  }

  /** The names in the order they are written. */
  function Table(): (t: seq<Entry>)
    ensures |t| == 124 && forall k :: 0 <= k < |t| ==> t[k] == EntryAt(k)
  {
    seq(124, k requires 0 <= k => EntryAt(k))
  }

  /** The fallback of the `k`-th entry: its position counting from 1,
      except for the two names that are aliases on the system the table
      came from. */
  function ExpectedFallback(k: nat): nat {
    if k == 40 then 11 else if k == 57 then 35 else k + 1
  }

  lemma FallbackLow(k: nat)
    requires k < 62
    ensures EntryAt(k).fallback == ExpectedFallback(k)
  {
  }

  lemma FallbackHigh(k: nat)
    requires 62 <= k < 124
    ensures EntryAt(k).fallback == ExpectedFallback(k)
  {
  }

  /** The table has 124 entries, the `k`-th falling back to `k + 1`,
      except EWOULDBLOCK (the 41st) to 11 and EDEADLOCK (the 58th) to 35,
      the values of EAGAIN and EDEADLK. */
  lemma TableFallbacks()
    ensures |Table()| == 124
    ensures forall k :: 0 <= k < |Table()| ==> Table()[k].fallback == ExpectedFallback(k)
    ensures Table()[40].name == "EWOULDBLOCK" && Table()[10].name == "EAGAIN"
            && Table()[40].fallback == Table()[10].fallback
    ensures Table()[57].name == "EDEADLOCK" && Table()[34].name == "EDEADLK"
            && Table()[57].fallback == Table()[34].fallback
  {
    forall k | 0 <= k < |Table()| ensures Table()[k].fallback == ExpectedFallback(k) {
      if k < 62 { FallbackLow(k); } else { FallbackHigh(k); }
    }
  }

  /** Two entries fall back to the same value only for the two alias
      pairs, EAGAIN/EWOULDBLOCK and EDEADLK/EDEADLOCK: every other
      guessed value is distinct. */
  lemma FallbacksCollideOnlyForAliases()
    ensures forall i, j :: 0 <= i < j < |Table()| && Table()[i].fallback == Table()[j].fallback ==>
              (i == 10 && j == 40) || (i == 34 && j == 57)
  {
    TableFallbacks();
  }

  // ---------------------------------------------------------------------
  // add_line
  // ---------------------------------------------------------------------

  const GuessPrefix: string := "*     "
  const IntegerPrefix: string := "      INTEGER ERRNO__"
  const ParamPrefix: string := "      PARAMETER ( ERRNO__"

  /** The comment written before a guessed entry. */
  function GuessLine(name: string): string {
    GuessComment(name) + "\n"
  }

  function GuessComment(name: string): string {
    GuessPrefix + name + " was not present. Guessing"
  }

  /** The declaration, with the error text as a trailing comment. */
  function IntegerLine(name: string, msg: string): string {
    IntegerPrefix + name + "    ! " + msg + "\n"
  }

  /** The PARAMETER statement and the blank line after it. */
  function ParamLine(name: string, constant: int): string {
    ParamPrefix + name + " = " + IntToDecimal(constant) + " )\n\n"
  }

  /** `add_line`: the text written for one name, its value, whether the
      value came from the host, and the host's message for it. */
  function AddLine(name: string, constant: int, isok: bool, msg: string): string {
    var decl := IntegerLine(name, msg) + ParamLine(name, constant);
    if isok then decl else GuessLine(name) + decl
  }

  // ---------------------------------------------------------------------
  // Reading an entry back
  // ---------------------------------------------------------------------

  /** A name that can be read back: no blank and no newline. */
  predicate Word(name: string) {
    forall k :: 0 <= k < |name| ==> name[k] != ' ' && name[k] != '\n'
  }

  /** The first line of `s` and what follows its newline. */
  function SplitLine(s: string): (r: Option<(string, string)>)
    ensures r.Some? ==> NoNewline(r.value.0) && s == r.value.0 + "\n" + r.value.1
  {
    match IndexOf(s, '\n')
    case None => None
    case Some(j) =>
      assert s == s[..j] + "\n" + s[j + 1..];
      Some((s[..j], s[j + 1..]))
  }

  /** Reads a PARAMETER statement back: the name up to the blank, and
      the value between " = " and " )". */
  function DecodeParam(s: string): Option<(string, int)> {
    if !IsPrefix(ParamPrefix, s) then None
    else
      var t := s[|ParamPrefix|..];
      match IndexOf(t, ' ')
      case None => None
      case Some(k) =>
        var u := t[k..];
        if !IsPrefix(" = ", u) || |u| < 3 + 4 || u[|u| - 4..] != " )\n\n" then None
        else match ParseDecimal(u[3..|u| - 4])
             case None => None
             case Some(c) => Some((t[..k], c))
  }

  /** Reads the guess comment, if any: whether the value came from the
      host, and the text after the comment. */
  function DecodeGuess(s: string): Option<(bool, string)> {
    if !IsPrefix(GuessPrefix, s) then Some((true, s))
    else match SplitLine(s)
         case None => None
         case Some(p) => Some((false, p.1))
  }

  /** Reads the declaration and the PARAMETER statement back: the name,
      the value and the message. */
  function DecodeDecl(s: string): Option<(string, int, string)> {
    match SplitLine(s)
    case None => None
    case Some(p) =>
      match DecodeParam(p.1)
      case None => None
      case Some(nc) =>
        var head := IntegerPrefix + nc.0 + "    ! ";
        if IsPrefix(head, p.0) then Some((nc.0, nc.1, p.0[|head|..])) else None
  }

  /** Reads an entry back: the name, the value, whether the value was the
      host's, and the message. */
  function DecodeEntry(s: string): Option<(string, int, bool, string)> {
    match DecodeGuess(s)
    case None => None
    case Some(g) =>
      match DecodeDecl(g.1)
      case None => None
      case Some(d) => Some((d.0, d.1, g.0, d.2))
  }

  /** The two halves of a concatenation. */
  lemma Halves(a: string, b: string)
    ensures IsPrefix(a, a + b) && (a + b)[..|a|] == a && (a + b)[|a|..] == b
  {
  }

  /** The first `c` of `a + [c] + b`, when `a` holds none, is the one
      after `a`. */
  lemma IndexOfJoin(a: string, c: char, b: string)
    requires forall k :: 0 <= k < |a| ==> a[k] != c
    ensures IndexOf(a + [c] + b, c) == Some(|a|)
  {
    var s := a + [c] + b;
    assert s[|a|] == c;
    match IndexOf(s, c)
    case None =>
    case Some(j) =>
      if j < |a| { assert s[j] == a[j]; }
  }

  lemma SplitLineOf(a: string, b: string)
    requires NoNewline(a)
    ensures SplitLine(a + "\n" + b) == Some((a, b))
  {
    var s := a + "\n" + b;
    assert s == a + ['\n'] + b;
    IndexOfJoin(a, '\n', b);
    assert s[..|a|] == a;
    assert s[|a| + 1..] == b;
  }

  /** A blank-free name followed by a blank: the name is what precedes
      the first blank. */
  lemma NameThenBlank(name: string, rest: string)
    requires Word(name)
    ensures IndexOf(name + [' '] + rest, ' ') == Some(|name|)
  {
    IndexOfJoin(name, ' ', rest);
  }

  /** The text after the name: " = ", the digits, " )" and the blank
      line. */
  lemma ParamTail(d: string)
    ensures var u := " = " + d + " )\n\n";
            && IsPrefix(" = ", u) && |u| >= 3 + 4
            && u[|u| - 4..] == " )\n\n" && u[3..|u| - 4] == d
  {
    var tail := " )\n\n";
    var u := " = " + d + tail;
    Halves(" = ", d + tail);
    assert u == (" = " + d) + tail;
    Halves(" = " + d, tail);
  }

  lemma DecodeParamOf(name: string, c: int)
    requires Word(name)
    ensures DecodeParam(ParamLine(name, c)) == Some((name, c))
  {
    var d := IntToDecimal(c);
    var u := " = " + d + " )\n\n";
    var t := name + u;
    assert ParamLine(name, c) == ParamPrefix + t;
    Halves(ParamPrefix, t);
    assert t == name + [' '] + u[1..];
    NameThenBlank(name, u[1..]);
    Halves(name, u);
    ParamTail(d);
    IntToDecimalRoundTrip(c);
  }

  /** Text of a line with no newline in its parts. */
  lemma LineOf(prefix: string, name: string, sep: string, msg: string)
    requires NoNewline(prefix) && Word(name) && NoNewline(sep) && NoNewline(msg)
    ensures NoNewline(prefix + name + sep + msg)
  {
    var l := prefix + name + sep + msg;
    forall k | 0 <= k < |l| ensures l[k] != '\n' {
      if k < |prefix| { assert l[k] == prefix[k]; }
      else if k < |prefix| + |name| { assert l[k] == name[k - |prefix|]; }
      else if k < |prefix| + |name| + |sep| { assert l[k] == sep[k - |prefix| - |name|]; }
      else { assert l[k] == msg[k - |prefix| - |name| - |sep|]; }
    }
  }

  /** The declaration and PARAMETER statement read back. */
  lemma DecodeBody(name: string, constant: int, msg: string)
    requires Word(name) && NoNewline(msg)
    ensures DecodeDecl(IntegerLine(name, msg) + ParamLine(name, constant)) == Some((name, constant, msg))
  {
    var head := IntegerPrefix + name + "    ! ";
    var il := head + msg;
    LineOf(IntegerPrefix, name, "    ! ", msg);
    assert IntegerLine(name, msg) + ParamLine(name, constant) == il + "\n" + ParamLine(name, constant);
    SplitLineOf(il, ParamLine(name, constant));
    DecodeParamOf(name, constant);
    Halves(head, msg);
  }

  /** A guessed entry starts with the comment line, which ends at its
      first newline. */
  lemma GuessedEntry(name: string, body: string)
    requires Word(name)
    ensures DecodeGuess(GuessLine(name) + body) == Some((false, body))
  {
    GuessCommentLine(name);
    SplitLineOf(GuessComment(name), body);
    GuessStart(name, body);
  }

  lemma GuessCommentLine(name: string)
    requires Word(name)
    ensures NoNewline(GuessComment(name))
  {
    LineOf(GuessPrefix, name, " was not present. Guessing", "");
    assert GuessComment(name) == GuessPrefix + name + " was not present. Guessing" + "";
  }

  lemma GuessStart(name: string, body: string)
    ensures IsPrefix(GuessPrefix, GuessLine(name) + body)
  {
    var rest := name + " was not present. Guessing" + "\n" + body;
    assert GuessLine(name) + body == GuessPrefix + rest;
    Halves(GuessPrefix, rest);
  }

  /** A host-valued entry starts with the declaration, not a comment. */
  lemma HostEntry(name: string, constant: int, msg: string)
    ensures var body := IntegerLine(name, msg) + ParamLine(name, constant);
            DecodeGuess(body) == Some((true, body))
  {
    var s := IntegerLine(name, msg) + ParamLine(name, constant);
    assert s[0] == IntegerPrefix[0] == ' ';
  }

  lemma HostRoundTrip(name: string, constant: int, msg: string)
    requires Word(name) && NoNewline(msg)
    ensures DecodeEntry(AddLine(name, constant, true, msg)) == Some((name, constant, true, msg))
  {
    HostEntry(name, constant, msg);
    DecodeBody(name, constant, msg);
  }

  lemma GuessRoundTrip(name: string, constant: int, msg: string)
    requires Word(name) && NoNewline(msg)
    ensures DecodeEntry(AddLine(name, constant, false, msg)) == Some((name, constant, false, msg))
  {
    var body := IntegerLine(name, msg) + ParamLine(name, constant);
    GuessedEntry(name, body);
    DecodeBody(name, constant, msg);
  }

  /** Whatever the host says, an entry written for a blank-free name and a
      one-line message reads back as the name, the value, whether it was
      the host's, and the message. */
  lemma AddLineRoundTrip(name: string, constant: int, isok: bool, msg: string)
    requires Word(name) && NoNewline(msg)
    ensures DecodeEntry(AddLine(name, constant, isok, msg)) == Some((name, constant, isok, msg))
  {
    if isok {
      HostRoundTrip(name, constant, msg);
    } else {
      GuessRoundTrip(name, constant, msg);
    }
  }

  // ---------------------------------------------------------------------
  // The program
  // ---------------------------------------------------------------------

  /** The exit codes. */
  const ExitSuccess: int := 0
  const ExitFailure: int := 1

  const IncludeFile: string := "ERRNO_ERR"

  /** The value written for an entry and whether it is the host's: the
      host's own value when its errno.h defines the name. */
  function Value(e: Entry, host: string -> Option<int>): (int, bool) {
    match host(e.name)
    case Some(v) => (v, true)
    case None => (e.fallback, false)
  }

  /** The text written for one entry. */
  function Written(e: Entry, host: string -> Option<int>, strerror: int -> string): string {
    var v := Value(e, host);
    AddLine(e.name, v.0, v.1, strerror(v.0))
  }

  /** The entries, in table order. */
  function Entries(es: seq<Entry>, write: Entry -> string): string
    decreases |es|
  {
    if |es| == 0 then "" else write(es[0]) + Entries(es[1..], write)
  }

  /** `add_line` as applied to each entry, for a given host. */
  function Writer(host: string -> Option<int>, strerror: int -> string): Entry -> string {
    e => Written(e, host, strerror)
  }

  /** The comment block at the head of the file. */
  function Header(progname: string, date: string): string {
    "*+\n*  Name:\n*     " + IncludeFile + "\n\n*  Type of Module:\n*     Fortran include file.\n\n"
    + "*  Purpose:\n*     Define private C ERRNO constants for the Fortran FIO system.\n\n"
    + "*  Description:\n*     This file defines private C ERRNO constants for the\n"
    + "*     FIO system. Required by fio1_serr.f in some cases (eg linux).\n\n"
    + "*  Authors:\n*     TIMJ: Tim Jenness (JAC, Hawaii)\n*     " + progname + " program\n\n"
    + "*  History:\n*     22-JUL-2004 (TIMJ):\n*        Original version of C program (via auto-generation).\n"
    + "*     " + date + " (" + progname + "):\n*        Generated\n"
    + "*     No further changes -- do not edit this file\n\n*-\n\n"
  }

  /** What a run produces: the exit code, the text on standard error and
      the include file, if one was written. */
  datatype Outcome = Outcome(exit: int, stderr: string, file: Option<string>)

  /** The whole include file: the header, then every entry of the table. */
  function IncludeText(progname: string, date: string,
                       host: string -> Option<int>, strerror: int -> string): string {
    Header(progname, date) + Entries(Table(), Writer(host, strerror))
  }

  /** The message for an output file that cannot be opened. */
  function OpenError(progname: string): (m: string)
    ensures |m| > |progname|
  {
    progname + ": can't open file " + IncludeFile + " for output\n"
  }

  /** The program's `main`: when the output cannot be opened nothing is
      written and the run fails; otherwise the whole file is written and
      the run succeeds. */
  function Generate(progname: string, canOpen: bool, date: string,
                    host: string -> Option<int>, strerror: int -> string): (r: Outcome)
    ensures r.exit == ExitSuccess <==> canOpen
    ensures !canOpen ==> r.exit == ExitFailure && r.file == None && |r.stderr| > 0
    ensures canOpen ==> |r.stderr| == 0 && r.file == Some(IncludeText(progname, date, host, strerror))
  {
    if !canOpen then Outcome(ExitFailure, OpenError(progname), None)
    else Outcome(ExitSuccess, "", Some(IncludeText(progname, date, host, strerror)))
  }

  /** The entries section holds, in table order, exactly the text of
      `add_line` for each name: the `k`-th entry follows the first `k`. */
  lemma {:induction false} EntriesAppend(a: seq<Entry>, b: seq<Entry>, write: Entry -> string)
    ensures Entries(a + b, write) == Entries(a, write) + Entries(b, write)
    decreases |a|
  {
    if |a| == 0 {
      assert a + b == b;
    } else {
      assert (a + b)[1..] == a[1..] + b;
      EntriesAppend(a[1..], b, write);
    }
  }

  /** The `k`-th entry's text sits between the text of the entries before
      it and the text of those after it. */
  lemma EntriesAt(es: seq<Entry>, k: nat, write: Entry -> string)
    requires k < |es|
    ensures Entries(es, write) == Entries(es[..k], write) + write(es[k]) + Entries(es[k + 1..], write)
  {
    var before, rest := es[..k], es[k + 1..];
    assert es == before + ([es[k]] + rest);
    EntriesAppend(before, [es[k]] + rest, write);
    EntriesCons(es[k], rest, write);
    Assoc(Entries(before, write), write(es[k]), Entries(rest, write));
  }

  lemma EntriesCons(e: Entry, rest: seq<Entry>, write: Entry -> string)
    ensures Entries([e] + rest, write) == write(e) + Entries(rest, write)
  {
    assert ([e] + rest)[1..] == rest;
  }

  lemma Assoc(a: string, b: string, c: string)
    ensures a + (b + c) == a + b + c
  {
  }

  /** A name the host lacks is written with its fallback value and the
      guess comment; a name it has is written with its own value and no
      comment. */
  lemma EntryText(k: nat, host: string -> Option<int>, strerror: int -> string)
    requires k < |Table()|
    ensures var e := Table()[k];
            var v := if host(e.name).Some? then host(e.name).value else ExpectedFallback(k);
            var w := Writer(host, strerror);
            Entries(Table(), w)
            == Entries(Table()[..k], w) + AddLine(e.name, v, host(e.name).Some?, strerror(v))
               + Entries(Table()[k + 1..], w)
  {
    var t := Table();
    if k < 62 { FallbackLow(k); } else { FallbackHigh(k); }
    assert t[k].fallback == ExpectedFallback(k);
    EntriesAt(t, k, Writer(host, strerror));
  }
}
