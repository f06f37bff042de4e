/** The statement-list parser fragments and the package loader of the ADI
    kernel (`adipkg.c`): matching the current symbol against a terminator
    list such as `|else|endif`, collecting the statements of a list,
    choosing the parser for a statement from its keyword, rejecting
    garbage after a statement, and the file names `ADIpkgRequire` tries
    along `ADI_LOAD_PATH`.

    The token stream is abstract: a statement list is given as the
    sequence of outcomes of its statement parses, and a statement's
    sub-parser as a function from the chosen parser to its outcome. */
module AdiPkg {
  import opened Common

  // ---------------------------------------------------------------------
  // Terminator lists
  // ---------------------------------------------------------------------

  /** No entry of a terminator list contains the bar that separates them. */
  predicate NoBar(e: string) {
    forall k :: 0 <= k < |e| ==> e[k] != '|'
  }

  /** The length of the entry at the front of `tl`: the characters before
      the next bar or the end of the list. */
  function EntryLen(tl: string): (n: nat)
    ensures n <= |tl|
    ensures NoBar(tl[..n])
    ensures n == |tl| || tl[n] == '|'
    decreases |tl|
  {
    if |tl| == 0 || tl[0] == '|' then 0
    else
      var n := 1 + EntryLen(tl[1..]);
      assert tl[..n] == [tl[0]] + tl[1..][..n - 1];
      n
  }

  /** The outcome of a terminator scan: the 1-based position reached, and
      whether the entry there matched. */
  datatype Scan = Scan(choice: nat, found: bool)

  /** The terminator scan of `adix_prs_cmdlist` for symbol `tok` over the
      list `tl`: each bar starts an entry, the entry matches when
      `strncmp` finds it at the front of `tok`, and `choice` counts the
      entries tried. With bad status the scan does not start, leaving
      `choice` at 1. */
  function ScanTerms(tok: string, tl: string, ok: bool): (r: Scan)
    ensures r.choice >= 1
    ensures !ok ==> r == Scan(1, false)
    decreases |tl|
  {
    if !ok || |tl| == 0 || tl[0] != '|' then Scan(1, false)
    else
      var rest := tl[1..];
      var len := EntryLen(rest);
      // only the first `len` characters of the list take part in the comparison
      if StrNCmpZero(tok, rest[..len], len) then Scan(1, true)
      else
        var r := ScanTerms(tok, rest[len..], ok);
        Scan(r.choice + 1, r.found)
  }

  /** The terminator list of entries `es`, each one preceded by a bar. */
  function Terms(es: seq<string>): string
    decreases |es|
  {
    if |es| == 0 then "" else "|" + es[0] + Terms(es[1..])
  }

  /** Entries that can be written into a terminator list. */
  predicate WellFormedEntries(es: seq<string>) {
    forall i :: 0 <= i < |es| ==> NoBar(es[i]) && NoNul(es[i])
  }

  /** The index of the first entry that is a prefix of `tok`, or `|es|`
      when there is none. */
  function FirstPrefix(es: seq<string>, tok: string): (k: nat)
    ensures k <= |es|
    ensures forall i :: 0 <= i < k ==> !IsPrefix(es[i], tok)
    ensures k < |es| ==> IsPrefix(es[k], tok)
    decreases |es|
  {
    if |es| == 0 then 0
    else if IsPrefix(es[0], tok) then 0
    else 1 + FirstPrefix(es[1..], tok)
  }

  /** An entry followed by the rest of a list ends where the rest starts. */
  lemma {:induction false} EntryLenOf(e: string, t: string)
    requires NoBar(e) && (|t| == 0 || t[0] == '|')
    ensures EntryLen(e + t) == |e|
    decreases |e|
  {
    if |e| > 0 {
      assert (e + t)[1..] == e[1..] + t;
      assert NoBar(e[1..]) by {
        forall k | 0 <= k < |e[1..]| ensures e[1..][k] != '|' {
          assert e[1..][k] == e[k + 1];
        }
      }
      EntryLenOf(e[1..], t);
    } else {
      assert e + t == t;
    }
  }

  /** The scan stops at the first entry that is a prefix of the symbol
      and reports its 1-based position; when no entry matches, `choice`
      is one past the number of entries. */
  lemma {:induction false} ScanFindsFirstPrefix(es: seq<string>, tok: string)
    requires WellFormedEntries(es) && NoNul(tok)
    ensures ScanTerms(tok, Terms(es), true)
            == Scan(FirstPrefix(es, tok) + 1, FirstPrefix(es, tok) < |es|)
    decreases |es|
  {
    if |es| > 0 {
      var tl := Terms(es);
      var rest := es[0] + Terms(es[1..]);
      assert tl[1..] == rest;
      var t := Terms(es[1..]);
      assert |t| == 0 || t[0] == '|';
      EntryLenOf(es[0], t);
      assert rest[..|es[0]|] == es[0];
      assert rest[|es[0]|..] == t;
      StrNCmpIsPrefix(tok, es[0]);
      assert WellFormedEntries(es[1..]) by {
        forall i | 0 <= i < |es[1..]| ensures NoBar(es[1..][i]) && NoNul(es[1..][i]) {
          assert es[1..][i] == es[i + 1];
        }
      }
      ScanFindsFirstPrefix(es[1..], tok);
    }
  }

  // ---------------------------------------------------------------------
  // Statement lists
  // ---------------------------------------------------------------------

  /** The tokens the list and statement parsers look at. */
  datatype Token = Sym(text: string) | EndOfLine | Semicolon | OtherToken

  /** One statement parse followed by `ADInextToken`: the statement
      (absent for a null statement), the status afterwards, and the
      current token. */
  datatype Step<S> = Step(stmt: Option<S>, ok: bool, next: Token)

  /** The outcome of `adix_prs_cmdlist`: the statements collected, the
      last value stored in `choice`, the status, whether a terminator
      ended the list, and how many statement parses were used. */
  datatype ListResult<S> = ListResult(stmts: seq<S>, choice: Option<nat>, ok: bool,
                                      matched: bool, used: nat)

  /** The statements of `steps`, dropping null ones. */
  function ValidStmts<S>(steps: seq<Step<S>>): seq<S>
    decreases |steps|
  {
    if |steps| == 0 then []
    else (if steps[0].stmt.Some? then [steps[0].stmt.value] else []) + ValidStmts(steps[1..])
  }

  /** The scan made after a step, if its token is a symbol. */
  function ScanAfter<S>(s: Step<S>, tl: string): Option<Scan> {
    if s.next.Sym? then Some(ScanTerms(s.next.text, tl, s.ok)) else None
  }

  /** `adix_prs_cmdlist` over the statement parses `steps`, entered with
      good status: parse a statement, keep it when it is not null, and
      when the current token is a symbol rescan the terminator list; stop
      on bad status or on a matching terminator. A list that runs out of
      parses ends unmatched with good status. */
  function CmdList<S>(steps: seq<Step<S>>, tl: string, choice: Option<nat>): (r: ListResult<S>)
    ensures r.used <= |steps|
    ensures |steps| > 0 ==> r.used >= 1
    ensures r.matched ==> r.ok
    decreases |steps|
  {
    if |steps| == 0 then ListResult([], choice, true, false, 0)
    else
      var s := steps[0];
      var here := if s.stmt.Some? then [s.stmt.value] else [];
      var m := ScanAfter(s, tl);
      var choice' := if m.Some? then Some(m.value.choice) else choice;
      if !s.ok then ListResult(here, choice', false, false, 1)
      else if m.Some? && m.value.found then ListResult(here, choice', true, true, 1)
      else
        var r := CmdList(steps[1..], tl, choice');
        r.(stmts := here + r.stmts, used := r.used + 1)
  }

  /** The list holds exactly the non-null statements parsed, in order. */
  lemma {:induction false} CmdListKeepsValid<S>(steps: seq<Step<S>>, tl: string, choice: Option<nat>)
    ensures CmdList(steps, tl, choice).stmts == ValidStmts(steps[..CmdList(steps, tl, choice).used])
    decreases |steps|
  {
    var r := CmdList(steps, tl, choice);
    if |steps| > 0 {
      var s := steps[0];
      var m := ScanAfter(s, tl);
      var choice' := if m.Some? then Some(m.value.choice) else choice;
      if !s.ok || (m.Some? && m.value.found) {
        assert steps[..1][1..] == [];
      } else {
        var r' := CmdList(steps[1..], tl, choice');
        CmdListKeepsValid(steps[1..], tl, choice');
        assert steps[..r.used][1..] == steps[1..][..r'.used];
      }
    }
  }

  /** The list stops exactly at the first parse that leaves bad status or
      a symbol matching a terminator: every earlier parse left good
      status and no match, and the list is matched precisely when that
      parse found a terminator, with `choice` holding its position. */
  lemma {:induction false} CmdListStops<S>(steps: seq<Step<S>>, tl: string, choice: Option<nat>)
    ensures var r := CmdList(steps, tl, choice);
            && (forall i :: 0 <= i < r.used - 1 ==>
                  steps[i].ok && !(ScanAfter(steps[i], tl).Some? && ScanAfter(steps[i], tl).value.found))
            && (r.used < |steps| ==> !r.ok || r.matched)
            && (r.used >= 1 ==> r.ok == steps[r.used - 1].ok)
            && (r.matched <==> (r.used >= 1 && ScanAfter(steps[r.used - 1], tl).Some?
                                && ScanAfter(steps[r.used - 1], tl).value.found && steps[r.used - 1].ok))
            && (r.matched ==> r.choice == Some(ScanAfter(steps[r.used - 1], tl).value.choice))
    decreases |steps|
  {
    if |steps| > 0 {
      var s := steps[0];
      var m := ScanAfter(s, tl);
      var choice' := if m.Some? then Some(m.value.choice) else choice;
      if s.ok && !(m.Some? && m.value.found) {
        CmdListStops(steps[1..], tl, choice');
        var r' := CmdList(steps[1..], tl, choice');
        forall i | 0 <= i < r'.used ensures steps[i + 1] == steps[1..][i] {
        }
      }
    }
  }

  /** The clause ended by the terminator of `|else|endif`: position 1 is
      ELSE, every other position ENDIF. */
  datatype Clause = Else | EndIf

  function IfClause(choice: nat): Clause {
    if choice == 1 then Else else EndIf
  }

  /** With the list `|else|endif`, a matched symbol that starts with
      "else" ends an ELSE clause, and one that does not but starts with
      "endif" ends the `if`. */
  lemma IfTerminator(tok: string)
    requires NoNul(tok)
    ensures var r := ScanTerms(tok, "|else|endif", true);
            && (r.found <==> IsPrefix("else", tok) || IsPrefix("endif", tok))
            && (r.found ==> (IfClause(r.choice) == Else <==> IsPrefix("else", tok)))
  {
    var es := ["else", "endif"];
    assert Terms(es[1..][1..]) == "";
    assert Terms(es) == "|else|endif";
    assert WellFormedEntries(es);
    ScanFindsFirstPrefix(es, tok);
    assert es[1..][1..] == [];
  }

  // ---------------------------------------------------------------------
  // Single statements
  // ---------------------------------------------------------------------

  /** The parsers `adix_prs_cmd` chooses between. */
  datatype Parser = DefClass | IfStatement | DoWhile | WhileLoop | Break | Print | Global | Expression

  /** The keyword that selects each statement parser. */
  function Keyword(p: Parser): string
    requires p != Expression
  {
    match p
    case DefClass => "defclass"
    case IfStatement => "if"
    case DoWhile => "do"
    case WhileLoop => "while"
    case Break => "break"
    case Print => "print"
    case Global => "global"
  }

  /** The statement keywords. */
  predicate IsKeyword(s: string) {
    s in {"defclass", "if", "do", "while", "break", "print", "global"}
  }

  /** The parser for a statement starting with `tok`: a symbol that is a
      keyword selects that keyword's parser, anything else is parsed as
      an expression. */
  function Dispatch(tok: Token): (p: Parser)
    ensures p == Expression <==> !(tok.Sym? && IsKeyword(tok.text))
    ensures p != Expression ==> tok == Sym(Keyword(p))
  {
    if tok.Sym? then
      if tok.text == "defclass" then DefClass
      else if tok.text == "if" then IfStatement
      else if tok.text == "do" then DoWhile
      else if tok.text == "while" then WhileLoop
      else if tok.text == "break" then Break
      else if tok.text == "print" then Print
      else if tok.text == "global" then Global
      else Expression
    else Expression
  }

  /** Each keyword selects its own parser. */
  lemma DispatchKeyword(p: Parser)
    requires p != Expression
    ensures Dispatch(Sym(Keyword(p))) == p
  {
  }

  /** The keyword table and the statement keywords agree: a string is a
      keyword exactly when some statement parser is selected by it, and
      no two parsers share a keyword. */
  lemma KeywordTable(s: string)
    ensures IsKeyword(s) <==> exists p :: p != Expression && Keyword(p) == s
    ensures forall p, q :: p != Expression && q != Expression && Keyword(p) == Keyword(q) ==> p == q
  {
    if IsKeyword(s) {
      var p := Dispatch(Sym(s));
      assert p != Expression && Keyword(p) == s;
    }
    forall p, q | p != Expression && q != Expression && Keyword(p) == Keyword(q) ensures p == q {
      DispatchKeyword(p);
      DispatchKeyword(q);
    }
  }

  /** What a sub-parser leaves behind: its statement, the status, and the
      current token. */
  datatype SubResult<S> = SubResult(stmt: Option<S>, ok: bool, after: Token)

  /** The outcome of `adix_prs_cmd`: the statement, the status, and
      whether a syntax error was reported for trailing garbage. */
  datatype CmdResult<S> = CmdResult(stmt: Option<S>, ok: bool, garbage: bool)

  /** A token that may end a statement. */
  predicate EndsStatement(t: Token) {
    t == EndOfLine || t == Semicolon
  }

  /** `adix_prs_cmd`: run the parser chosen for `tok`, then report a
      syntax error when a statement was parsed with good status but the
      current token does not end it. The statement is returned in every
      case. */
  function Cmd<S>(tok: Token, parse: Parser -> SubResult<S>): (r: CmdResult<S>)
    ensures r.stmt == parse(Dispatch(tok)).stmt
    ensures r.ok ==> parse(Dispatch(tok)).ok
    ensures r.ok && r.stmt.Some? ==> EndsStatement(parse(Dispatch(tok)).after)
    ensures parse(Dispatch(tok)).ok && (r.stmt.None? || EndsStatement(parse(Dispatch(tok)).after))
            ==> r.ok
  {
    var sub := parse(Dispatch(tok));
    var garbage := sub.stmt.Some? && sub.ok && !EndsStatement(sub.after);
    CmdResult(sub.stmt, sub.ok && !garbage, garbage)
  }

  /** The status stays good exactly when the parser succeeded and its
      statement (if any) is followed by an end of line or a semicolon;
      trailing garbage is reported exactly when a
      statement was parsed with good status and something else follows;
      a null statement or bad status never adds that report. */
  lemma CmdTrailing<S>(tok: Token, parse: Parser -> SubResult<S>)
    ensures var r := Cmd(tok, parse);
            var sub := parse(Dispatch(tok));
            && (r.ok && r.stmt.Some? ==> EndsStatement(sub.after))
            && (r.garbage <==> sub.stmt.Some? && sub.ok && !EndsStatement(sub.after))
            && ((sub.stmt.None? || !sub.ok) ==> r.ok == sub.ok && !r.garbage)
            && (r.ok <==> sub.ok && (sub.stmt.None? || EndsStatement(sub.after)))
  {
  }

  // ---------------------------------------------------------------------
  // Package loading
  // ---------------------------------------------------------------------

  /** Whether `ADI_LOAD_PATH` has been read, and its value (`None` for an
      unset variable). */
  datatype LoadState = LoadState(fetched: bool, ldpath: Option<string>)

  /** Reads the environment variable the first time a package is
      required; later calls keep the stored value. */
  function FetchLoadPath(st: LoadState, env: Option<string>): (st': LoadState)
    ensures st'.fetched
    ensures st.fetched ==> st' == st
    ensures !st.fetched ==> st'.ldpath == env
  {
    if st.fetched then st else LoadState(true, env)
  }

  /** The load path is read at most once: a second call sees the first
      call's value whatever the environment says then. */
  lemma FetchOnce(st: LoadState, e1: Option<string>, e2: Option<string>)
    ensures FetchLoadPath(FetchLoadPath(st, e1), e2) == FetchLoadPath(st, e1)
  {
  }

  /** The index of the first non-blank character from `k` (or `k` itself
      at or past the end). */
  function SkipBlanks(p: string, k: nat): (j: nat)
    ensures k <= j
    ensures k <= |p| ==> j <= |p|
    ensures k >= |p| ==> j == k
    decreases |p| - k
  {
    if k < |p| && p[k] == ' ' then SkipBlanks(p, k + 1) else k
  }

  /** The index of the first separator `:` from `k` (or the end). */
  function SegEnd(p: string, k: nat): (j: nat)
    ensures k <= j
    ensures k <= |p| ==> j <= |p|
    ensures k >= |p| ==> j == k
    decreases |p| - k
  {
    if k < |p| && p[k] != ':' then SegEnd(p, k + 1) else k
  }

  /** The file name tried for directory `dir`. */
  function Candidate(dir: string, name: string): string {
    dir + "/" + name + ".adi"
  }

  /** The loop guard of the search: as written it compares the path index
      with the length of the name just built; corrected, with the length
      of the load path. */
  datatype Guard = AsWritten | Corrected

  /** The file names the search tries from path index `ulen`: skip
      blanks, take the directory up to the next `:`, try
      `dir/name.adi`; stop when the file opens or the guard fails. */
  function Tries(p: string, name: string, opens: string -> bool, ulen: nat, g: Guard): (tried: seq<string>)
    ensures |tried| >= 1
    decreases |p| + |name| + 1 - ulen
  {
    var s := SkipBlanks(p, ulen);
    var e := SegEnd(p, s);
    var dir := if ulen <= |p| then p[s..e] else "";
    var f := Candidate(dir, name);
    var flen := |dir| + 1 + |name|;
    var next := e + 1;
    if opens(f) then [f]
    else if (g == AsWritten && next < flen) || (g == Corrected && next <= |p|) then
      [f] + Tries(p, name, opens, next, g)
    else [f]
  }

  /** What `ADIpkgRequire` does. */
  datatype Outcome = Loaded(file: string) | NotFound | Skipped

  datatype Require = Require(st: LoadState, tried: seq<string>, outcome: Outcome)

  /** `ADIpkgRequire` entered with status `ok`: fetch the load path, try
      the candidates (only `name.adi` without a load path), and load the
      first file that opens or report the package as not found. */
  function PkgRequire(ok: bool, st: LoadState, env: Option<string>, name: string,
                      opens: string -> bool, g: Guard): (r: Require)
    ensures !ok ==> r == Require(st, [], Skipped)
    ensures ok ==> r.st == FetchLoadPath(st, env) && |r.tried| >= 1
    ensures r.outcome.Loaded? ==> r.outcome.file == r.tried[|r.tried| - 1] && opens(r.outcome.file)
    ensures ok && r.outcome.NotFound? ==> !opens(r.tried[|r.tried| - 1])
  {
    if !ok then Require(st, [], Skipped)
    else
      var st' := FetchLoadPath(st, env);
      var tried := if st'.ldpath.None? then [name + ".adi"] else Tries(st'.ldpath.value, name, opens, 0, g);
      var last := tried[|tried| - 1];
      Require(st', tried, if opens(last) then Loaded(last) else NotFound)
  }

  /** The search stops at the first file that opens: no earlier
      candidate opens. */
  lemma {:induction false} TriesStopAtFirst(p: string, name: string, opens: string -> bool, ulen: nat, g: Guard)
    ensures forall i :: 0 <= i < |Tries(p, name, opens, ulen, g)| - 1 ==> !opens(Tries(p, name, opens, ulen, g)[i])
    decreases |p| + |name| + 1 - ulen
  {
    var s := SkipBlanks(p, ulen);
    var e := SegEnd(p, s);
    var dir := if ulen <= |p| then p[s..e] else "";
    var f := Candidate(dir, name);
    var flen := |dir| + 1 + |name|;
    var next := e + 1;
    if !opens(f) && ((g == AsWritten && next < flen) || (g == Corrected && next <= |p|)) {
      TriesStopAtFirst(p, name, opens, next, g);
      var t' := Tries(p, name, opens, next, g);
      var t := Tries(p, name, opens, ulen, g);
      assert t == [f] + t';
      forall i | 0 <= i < |t| - 1 ensures !opens(t[i]) {
        if i > 0 {
          assert t[i] == t'[i - 1];
        }
      }
    } else {
      assert Tries(p, name, opens, ulen, g) == [f];
    }
  }

  // The reference: the load path split at every ':' ---------------------

  predicate NoColon(s: string) {
    forall k :: 0 <= k < |s| ==> s[k] != ':'
  }

  /** The directories joined with `:`. */
  function Join(segs: seq<string>): string
    requires |segs| >= 1
    decreases |segs|
  {
    if |segs| == 1 then segs[0] else segs[0] + ":" + Join(segs[1..])
  }

  /** The load path split at every `:`. */
  function Split(p: string): (segs: seq<string>)
    ensures |segs| >= 1
    ensures forall i :: 0 <= i < |segs| ==> NoColon(segs[i])
    decreases |p|
  {
    var j := SegEnd(p, 0);
    SegEndNoColon(p, 0);
    if j == |p| then [p[..j]]
    else
      var rest := Split(p[j + 1..]);
      [p[..j]] + rest
  }

  /** The characters before `SegEnd` hold no separator. */
  lemma {:induction false} SegEndNoColon(p: string, k: nat)
    requires k <= |p|
    ensures NoColon(p[k..SegEnd(p, k)])
    ensures SegEnd(p, k) == |p| || p[SegEnd(p, k)] == ':'
    decreases |p| - k
  {
    if k < |p| && p[k] != ':' {
      SegEndNoColon(p, k + 1);
      assert p[k..SegEnd(p, k)] == [p[k]] + p[k + 1..SegEnd(p, k)];
    }
  }

  /** Splitting and joining are inverse. */
  lemma {:induction false} JoinSplit(p: string)
    ensures Join(Split(p)) == p
    decreases |p|
  {
    var j := SegEnd(p, 0);
    SegEndNoColon(p, 0);
    if j == |p| {
      assert p[..j] == p;
    } else {
      JoinSplit(p[j + 1..]);
      var segs := Split(p);
      assert segs[1..] == Split(p[j + 1..]);
      assert p == p[..j] + ":" + p[j + 1..];
    }
  }

  /** A directory with its leading blanks removed. */
  function TrimLeft(s: string): string
    decreases |s|
  {
    if |s| > 0 && s[0] == ' ' then TrimLeft(s[1..]) else s
  }

  /** The candidate for each directory, in order. */
  function Candidates(segs: seq<string>, name: string): (cs: seq<string>)
    ensures |cs| == |segs|
    decreases |segs|
  {
    if |segs| == 0 then [] else [Candidate(TrimLeft(segs[0]), name)] + Candidates(segs[1..], name)
  }

  /** The candidates up to and including the first that opens (all of
      them when none does). */
  function UpToFirstOpen(cs: seq<string>, opens: string -> bool): seq<string>
    decreases |cs|
  {
    if |cs| == 0 then []
    else if opens(cs[0]) || |cs| == 1 then [cs[0]]
    else [cs[0]] + UpToFirstOpen(cs[1..], opens)
  }

  /** Within a directory `seg` starting at `k`, `SegEnd` stops at its end. */
  lemma {:induction false} SegEndAt(p: string, k: nat, e: nat)
    requires k <= e <= |p| && NoColon(p[k..e]) && (e == |p| || p[e] == ':')
    ensures SegEnd(p, k) == e
    decreases e - k
  {
    if k < e {
      assert p[k] == p[k..e][0];
      assert p[k + 1..e] == p[k..e][1..];
      SegEndAt(p, k + 1, e);
    }
  }

  /** Skipping the blanks at the front of a directory leaves its trimmed
      form. */
  lemma {:induction false} SkipBlanksAt(p: string, k: nat, e: nat)
    requires k <= e <= |p| && NoColon(p[k..e]) && (e == |p| || p[e] == ':')
    ensures SkipBlanks(p, k) <= e
    ensures p[SkipBlanks(p, k)..e] == TrimLeft(p[k..e])
    decreases e - k
  {
    if k < e && p[k] == ' ' {
      assert p[k..e][0] == ' ';
      assert p[k + 1..e] == p[k..e][1..];
      SkipBlanksAt(p, k + 1, e);
    } else if k == e {
    } else {
      assert p[k..e][0] == p[k];
    }
  }

  /** The directory that starts at `ulen` and ends at `e`, once its
      blanks are skipped, is its trimmed form, and ends at `e`. */
  lemma DirectoryAt(p: string, ulen: nat, e: nat)
    requires ulen <= e <= |p| && NoColon(p[ulen..e]) && (e == |p| || p[e] == ':')
    ensures SegEnd(p, SkipBlanks(p, ulen)) == e
    ensures p[SkipBlanks(p, ulen)..e] == TrimLeft(p[ulen..e])
  {
    SkipBlanksAt(p, ulen, e);
    var s := SkipBlanks(p, ulen);
    if s < e {
      assert p[s..e] == p[ulen..e][s - ulen..];
      SegEndAt(p, s, e);
    }
  }

  /** The joined directories from `ulen`: the first one, then a
      separator and the rest. */
  lemma JoinAt(p: string, ulen: nat, segs: seq<string>)
    requires ulen <= |p| && |segs| >= 1 && p[ulen..] == Join(segs)
    ensures ulen + |segs[0]| <= |p| && p[ulen..ulen + |segs[0]|] == segs[0]
    ensures |segs| == 1 ==> ulen + |segs[0]| == |p|
    ensures |segs| > 1 ==> (ulen + |segs[0]| < |p| && p[ulen + |segs[0]|] == ':'
                            && p[ulen + |segs[0]| + 1..] == Join(segs[1..]))
  {
    var e := ulen + |segs[0]|;
    assert p[ulen..][..|segs[0]|] == segs[0];
    assert p[ulen..e] == p[ulen..][..|segs[0]|];
    if |segs| > 1 {
      assert p[ulen..][|segs[0]|] == ':';
      assert p[e + 1..] == p[ulen..][|segs[0]| + 1..];
    }
  }

  /** From the start of a directory, the corrected search tries the
      candidates of that directory and the ones after it. */
  lemma {:induction false} CorrectedFrom(p: string, name: string, opens: string -> bool,
                                         ulen: nat, segs: seq<string>)
    requires ulen <= |p| && |segs| >= 1 && p[ulen..] == Join(segs)
    requires forall i :: 0 <= i < |segs| ==> NoColon(segs[i])
    ensures Tries(p, name, opens, ulen, Corrected) == UpToFirstOpen(Candidates(segs, name), opens)
    decreases |segs|
  {
    JoinAt(p, ulen, segs);
    var e := ulen + |segs[0]|;
    DirectoryAt(p, ulen, e);
    var f := Candidate(TrimLeft(segs[0]), name);
    var cs := Candidates(segs, name);
    assert cs[0] == f;
    if |segs| > 1 && !opens(f) {
      CorrectedFrom(p, name, opens, e + 1, segs[1..]);
      assert cs[1..] == Candidates(segs[1..], name);
      assert Tries(p, name, opens, ulen, Corrected) == [f] + Tries(p, name, opens, e + 1, Corrected);
    } else {
      assert Tries(p, name, opens, ulen, Corrected) == [f];
    }
  }

  /** The corrected search tries the directories of the load path in
      order, each with its leading blanks removed, up to the first file
      that opens. */
  lemma CorrectedTriesEverySegment(p: string, name: string, opens: string -> bool)
    ensures Tries(p, name, opens, 0, Corrected) == UpToFirstOpen(Candidates(Split(p), name), opens)
  {
    JoinSplit(p);
    CorrectedFrom(p, name, opens, 0, Split(p));
  }

  /** As written, with load path `a:b:c` and no file present the search
      gives up after `b/x.adi`: the guard compares the path index with
      the length of the name just built, so the third directory is never
      tried. */
  lemma AsWrittenSkipsDirectory()
    ensures Tries("a:b:c", "x", (f: string) => false, 0, AsWritten) == ["a/x.adi", "b/x.adi"]
  {
    var none := (f: string) => false;
    var p := "a:b:c";
    assert SkipBlanks(p, 0) == 0 && SegEnd(p, 0) == 1;
    assert SkipBlanks(p, 2) == 2 && SegEnd(p, 2) == 3;
    assert p[0..1] == "a" && p[2..3] == "b";
    assert Candidate("a", "x") == "a/x.adi" && Candidate("b", "x") == "b/x.adi";
    assert Tries(p, "x", none, 2, AsWritten) == ["b/x.adi"];
  }

  /** Corrected, the same search tries all three directories. */
  lemma CorrectedTriesThree()
    ensures Tries("a:b:c", "x", (f: string) => false, 0, Corrected) == ["a/x.adi", "b/x.adi", "c/x.adi"]
  {
    var none := (f: string) => false;
    var p := "a:b:c";
    assert SkipBlanks(p, 0) == 0 && SegEnd(p, 0) == 1;
    assert SkipBlanks(p, 2) == 2 && SegEnd(p, 2) == 3;
    assert SkipBlanks(p, 4) == 4 && SegEnd(p, 4) == 5;
    assert p[0..1] == "a" && p[2..3] == "b" && p[4..5] == "c";
    assert Candidate("a", "x") == "a/x.adi" && Candidate("b", "x") == "b/x.adi";
    assert Candidate("c", "x") == "c/x.adi";
    assert Tries(p, "x", none, 4, Corrected) == ["c/x.adi"];
    assert Tries(p, "x", none, 2, Corrected) == ["b/x.adi", "c/x.adi"];
  }

  /** As written, an empty load path makes the search try `/x.adi` a
      second time from an index past the string's terminator. */
  lemma AsWrittenEmptyPath()
    ensures var none := (f: string) => false;
            Tries("", "x", none, 0, AsWritten) == ["/x.adi", "/x.adi"]
  {
    var none := (f: string) => false;
    assert Candidate("", "x") == "/x.adi";
    assert Tries("", "x", none, 1, AsWritten) == ["/x.adi"];
  }
}
