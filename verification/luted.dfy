/** KAPPA's LutEdit launcher (`kps1_luted.c`): the copy of a Fortran
    string as a C string without its trailing blanks (`cstring`), the
    shell command that runs the Tcl script with its output redirected to
    a temporary file, and the reading back of that file, where any
    non-empty line means the script complained.

    The temporary name from `mkstemp`, the memory allocator, `system` and
    the file's contents are parameters of the model. */
module Luted {
  import opened Common

  /** Inherited status and the error messages reported. */
  datatype Status = Status(ok: bool, errors: seq<string>)

  /** Reports an error: the status goes bad and the message is stacked. */
  function Report(st: Status, msg: string): (st': Status)
    ensures !st'.ok && st'.errors == st.errors + [msg]
  {
    Status(false, st.errors + [msg])
  }

  // ---------------------------------------------------------------------
  // cstring
  // ---------------------------------------------------------------------

  /** The trimming loop: from index `len`, step back over blanks, but
      never past the first character. */
  function TrimFrom(f: string, len: nat): (k: nat)
    requires len < |f|
    ensures k <= len
    decreases len
  {
    if len != 0 && f[len] == ' ' then TrimFrom(f, len - 1) else len
  }

  /** The kept length: the loop's final index plus one. Every character
      after it is a blank, and the last kept one is not a blank unless it
      is the first character. */
  lemma {:induction false} TrimFromBlanks(f: string, len: nat)
    requires len < |f|
    requires forall j :: len < j < |f| ==> f[j] == ' '
    ensures var k := TrimFrom(f, len) + 1;
            && 1 <= k <= |f|
            && (forall j :: k <= j < |f| ==> f[j] == ' ')
            && (k == 1 || f[k - 1] != ' ')
    decreases len
  {
    if len != 0 && f[len] == ' ' {
      TrimFromBlanks(f, len - 1);
    }
  }

  /** The length `cstring` keeps of `f`. */
  function KeptLength(f: string): (k: nat)
    requires |f| >= 1
    ensures 1 <= k <= |f|
    ensures forall j :: k <= j < |f| ==> f[j] == ' '
    ensures k == 1 || f[k - 1] != ' '
  {
    TrimFromBlanks(f, |f| - 1);
    TrimFrom(f, |f| - 1) + 1
  }

  /** Only one length meets that description. */
  lemma KeptLengthUnique(f: string, k: nat)
    requires |f| >= 1 && 1 <= k <= |f|
    requires forall j :: k <= j < |f| ==> f[j] == ' '
    requires k == 1 || f[k - 1] != ' '
    ensures k == KeptLength(f)
  {
  }

  /** Reference definition: drop trailing blanks one at a time, keeping
      at least one character. */
  function RightTrim(s: string): (t: string)
    requires |s| >= 1
    decreases |s|
  {
    if |s| == 1 || s[|s| - 1] != ' ' then s else RightTrim(s[..|s| - 1])
  }

  /** The backwards scan of `cstring` keeps exactly the right-trimmed
      string. */
  lemma {:induction false} KeptIsRightTrim(f: string)
    requires |f| >= 1
    ensures f[..KeptLength(f)] == RightTrim(f)
    decreases |f|
  {
    if |f| == 1 || f[|f| - 1] != ' ' {
      KeptLengthUnique(f, |f|);
      assert f[..|f|] == f;
    } else {
      var g := f[..|f| - 1];
      var k := KeptLength(f);
      assert k < |f|;
      KeptLengthUnique(g, k);
      KeptIsRightTrim(g);
      assert g[..k] == f[..k];
    }
  }

  /** `cstring`: with bad status nothing is done; otherwise the string
      without its trailing blanks (but with at least its first character)
      is copied into a buffer of one more byte holding a final NUL, or
      the allocation failure is reported. */
  function CString(f: string, st: Status, allocOk: bool): (r: (Option<string>, Status))
    requires |f| >= 1
    ensures !st.ok ==> r == (None, st)
    ensures st.ok && allocOk ==> r.1 == st && r.0.Some?
                                 && r.0.value == f[..KeptLength(f)] + "\0"
    ensures st.ok && !allocOk ==> r.0.None?
                                  && r.1 == Report(st, "Unable to allocate " + NatToDecimal(KeptLength(f) + 1)
                                                       + " bytes of memory. ")
  {
    if !st.ok then (None, st)
    else
      var len := KeptLength(f);
      if allocOk then (Some(f[..len] + "\0"), st)
      else (None, Report(st, "Unable to allocate " + NatToDecimal(len + 1) + " bytes of memory. "))
  }

  /** An all-blank string is copied as a single blank. */
  lemma AllBlankKeepsOne(f: string)
    requires |f| >= 1 && forall j :: 0 <= j < |f| ==> f[j] == ' '
    ensures KeptLength(f) == 1 && f[..KeptLength(f)] == " "
  {
    KeptLengthUnique(f, 1);
  }

  // ---------------------------------------------------------------------
  // The shell command
  // ---------------------------------------------------------------------

  /** `strlcpy`/`strlcat` into a buffer of `size` bytes: append what
      fits, leaving room for the NUL. */
  function StrlCat(dst: string, src: string, size: nat): (r: string)
    requires |dst| < size
    ensures |r| < size
    ensures |dst| + |src| < size ==> r == dst + src
  {
    if |dst| + |src| < size then dst + src else dst + src[..size - 1 - |dst|]
  }

  /** The buffer size computed for the command. */
  function ScriptBytes(cmd: string, outfile: string): nat {
    |cmd| + |" 1>"| + |outfile| + |" 2>&1"| + 1
  }

  /** The command assembled in a buffer of `ScriptBytes` bytes. */
  function Script(cmd: string, outfile: string): string {
    var size := ScriptBytes(cmd, outfile);
    StrlCat(StrlCat(StrlCat(StrlCat("", cmd, size), " 1>", size), outfile, size), " 2>&1", size)
  }

  /** The buffer is exactly big enough: nothing is truncated, the command
      redirects both streams to the temporary file, and the buffer holds
      the command and its NUL with no byte to spare. */
  lemma ScriptFits(cmd: string, outfile: string)
    ensures Script(cmd, outfile) == cmd + " 1>" + outfile + " 2>&1"
    ensures |Script(cmd, outfile)| + 1 == ScriptBytes(cmd, outfile)
  {
    assert "" + cmd == cmd;
  }

  // ---------------------------------------------------------------------
  // Reading the output back
  // ---------------------------------------------------------------------

  /** The buffer size of the line reader. */
  const BufLen: nat := 512

  /** The length of the piece `fgets` reads from `c`: through the first
      newline, but at most `BufLen - 1` characters. */
  function PieceLen(c: seq<char>): (n: nat)
    requires |c| >= 1
    ensures 1 <= n <= |c| && n <= BufLen - 1
    ensures forall j :: 0 <= j < n - 1 ==> c[j] != '\n'
    ensures n < |c| ==> c[n - 1] == '\n' || n == BufLen - 1
    decreases |c|
  {
    PieceFrom(c, 0)
  }

  function PieceFrom(c: seq<char>, i: nat): (n: nat)
    requires i < |c| && i < BufLen - 1
    requires forall j :: 0 <= j < i ==> c[j] != '\n'
    ensures i + 1 <= n <= |c| && n <= BufLen - 1
    ensures forall j :: 0 <= j < n - 1 ==> c[j] != '\n'
    ensures n < |c| ==> c[n - 1] == '\n' || n == BufLen - 1
    decreases |c| - i
  {
    if c[i] == '\n' || i + 1 == |c| || i + 1 == BufLen - 1 then i + 1
    else PieceFrom(c, i + 1)
  }

  /** The successive `fgets` reads of the whole file. */
  function Pieces(c: seq<char>): (ps: seq<seq<char>>)
    ensures forall i :: 0 <= i < |ps| ==> 1 <= |ps[i]| <= BufLen - 1
    decreases |c|
  {
    if |c| == 0 then []
    else
      var n := PieceLen(c);
      [c[..n]] + Pieces(c[n..])
  }

  function Concat(ps: seq<seq<char>>): seq<char>
    decreases |ps|
  {
    if |ps| == 0 then [] else ps[0] + Concat(ps[1..])
  }

  lemma ConcatCons(p: seq<char>, rest: seq<seq<char>>)
    ensures Concat([p] + rest) == p + Concat(rest)
  {
    assert ([p] + rest)[1..] == rest;
  }

  /** The reads cover the file exactly, in order. */
  lemma {:induction false} PiecesCover(c: seq<char>)
    ensures Concat(Pieces(c)) == c
    decreases |c|
  {
    if |c| > 0 {
      var n := PieceLen(c);
      PiecesCover(c[n..]);
      ConcatCons(c[..n], Pieces(c[n..]));
      assert c[..n] + c[n..] == c;
    }
  }

  /** A buffer as C text (what `strlen` measures and `strlcpy` copies):
      the characters before its first NUL, or all of them. */
  function CText(s: seq<char>): (t: string)
    ensures IsPrefix(t, s) && NoNul(t)
    ensures |t| < |s| ==> s[|t|] == '\0'
    decreases |s|
  {
    if |s| == 0 || s[0] == '\0' then [] else [s[0]] + CText(s[1..])
  }

  /** Text with no NUL is its own C text, and a NUL appended after it is
      where the C text stops. */
  lemma {:induction false} CTextNoNul(s: string)
    requires NoNul(s)
    ensures CText(s) == s && CText(s + "\0") == s
    decreases |s|
  {
    if |s| > 0 {
      CTextNoNul(s[1..]);
      assert (s + "\0")[1..] == s[1..] + "\0";
      assert [s[0]] + s[1..] == s;
    }
  }

  /** The lines shown: each read whose C text is not empty. */
  function Shown(ps: seq<seq<char>>): seq<string>
    decreases |ps|
  {
    if |ps| == 0 then []
    else (if |CText(ps[0])| > 0 then [CText(ps[0])] else []) + Shown(ps[1..])
  }

  /** For a file without NUL bytes, some line is shown exactly when the
      file is not empty. */
  lemma {:induction false} ShownIffNonEmpty(c: seq<char>)
    requires NoNul(c)
    ensures |Shown(Pieces(c))| > 0 <==> |c| > 0
  {
    if |c| > 0 {
      var n := PieceLen(c);
      assert c[..n][0] == c[0] != '\0';
      assert |CText(c[..n])| > 0;
    }
  }

  // ---------------------------------------------------------------------
  // The whole routine
  // ---------------------------------------------------------------------

  /** The outside world of one call: allocations, the temporary file
      name, and what the script wrote. */
  datatype World = World(cmdAlloc: bool, tempOk: bool, outfile: string, scriptAlloc: bool,
                         outOpen: bool, output: seq<char>)

  /** What a call did: the final status, the command run (if any), and
      the lines shown. */
  datatype Run = Run(st: Status, script: Option<string>, shown: seq<string>)

  /** `kps1_luted` for the Fortran command `cmdF`. */
  function Luted(st: Status, cmdF: string, w: World): (r: Run)
    requires |cmdF| >= 1
    ensures !st.ok ==> r == Run(st, None, [])
    ensures r.script.Some? ==> st.ok && w.cmdAlloc && w.tempOk && w.scriptAlloc
    ensures r.shown != [] ==> r.script.Some? && w.outOpen
  {
    if !st.ok then Run(st, None, [])
    else
      var (cmd, st1) := CString(cmdF, st, w.cmdAlloc);
      if cmd.None? then Run(st1, None, [])
      else if !w.tempOk then Run(Report(st1, "Unable to create a temporary \"luted_out\" file name."), None, [])
      else if !w.scriptAlloc then Run(Report(st1, "Failed to allocate memory for full TCL command ."), None, [])
      else
        // `strlen` and `strlcpy` see the copy only up to its first NUL
        var text := CText(cmd.value);
        var script := Script(text, w.outfile);
        if !w.outOpen then Run(st1, Some(script), [])
        else
          var shown := Shown(Pieces(w.output));
          var st2 := if |shown| > 0 then Report(st1, "Messages received from the TCL script.") else st1;
          Run(st2, Some(script), shown)
  }

  /** When the script runs, its command is the C text of the trimmed
      Fortran command (everything before an embedded NUL, or the whole
      trimmed command when it has none) with both output streams
      redirected to the temporary file; the call ends with bad status
      exactly when something failed or a line of output was shown. */
  lemma LutedOutcome(st: Status, cmdF: string, w: World)
    requires st.ok && |cmdF| >= 1
    ensures var r := Luted(st, cmdF, w);
            && (w.cmdAlloc && w.tempOk && w.scriptAlloc
                ==> r.script == Some(CText(cmdF[..KeptLength(cmdF)]) + " 1>" + w.outfile + " 2>&1"))
            && (w.cmdAlloc && w.tempOk && w.scriptAlloc && NoNul(cmdF)
                ==> r.script == Some(cmdF[..KeptLength(cmdF)] + " 1>" + w.outfile + " 2>&1"))
            && (!r.st.ok <==> (!w.cmdAlloc || !w.tempOk || !w.scriptAlloc
                               || (w.outOpen && |Shown(Pieces(w.output))| > 0)))
  {
    if w.cmdAlloc {
      var kept := cmdF[..KeptLength(cmdF)];
      var c := kept + "\0";
      CTextStopsAtNul(kept);
      ScriptFits(CText(kept), w.outfile);
      if NoNul(cmdF) {
        CTextNoNul(kept);
      }
    }
  }

  /** The C text of a copy with its terminating NUL is the C text of the
      copy's characters. */
  lemma {:induction false} CTextStopsAtNul(s: string)
    ensures CText(s + "\0") == CText(s)
    decreases |s|
  {
    if |s| > 0 && s[0] != '\0' {
      CTextStopsAtNul(s[1..]);
      assert (s + "\0")[1..] == s[1..] + "\0";
    }
  }

  /** A Fortran command with an embedded CHAR(0) runs only the part
      before it: `"ab" // CHAR(0) // "cd"` runs `ab`. */
  lemma EmbeddedNulCutsCommand(st: Status, w: World)
    requires st.ok && w.cmdAlloc && w.tempOk && w.scriptAlloc
    ensures Luted(st, "ab\0cd", w).script == Some("ab 1>" + w.outfile + " 2>&1")
  {
    LutedOutcome(st, "ab\0cd", w);
    assert KeptLength("ab\0cd") == 5 && "ab\0cd"[..5] == "ab\0cd";
    assert "ab\0cd"[1..] == "b\0cd" && "b\0cd"[1..] == "\0cd";
    assert CText("ab\0cd") == ['a'] + (['b'] + CText("\0cd")) == "ab";
    assert "ab" + " 1>" == "ab 1>";
  }
}
