/** MERS error-message delivery (`err1Print` and its Fortran wrapper
    `err1_print`): how the text of one message is cut into the lines
    handed to the error stream, with an optional terminal bell, a blank
    message shown as "!!", and continuation lines marked "!     ".

    The line splitter `ems1Rform` is a parameter: any function that
    returns a piece no wider than asked and moves the position forward
    (or to 0 at the end). The error stream is a parameter too, giving the
    local status after the lines have been written. */
module ErrPrint {
  import opened Common

  /** The good status value. */
  const SaiOk: int := 0

  /** The continuation prefix. */
  const Constr: string := "!     "

  /** The `errbel` argument: a NULL pointer, or a pointer to a flag. */
  datatype BellArg = NoBell | BellFlag(value: bool)

  /** The test made on `errbel`: as written the pointer alone decides;
      corrected, the flag it points to must also be set. */
  datatype Guard = AsWritten | Corrected

  /** What one call did: the lines delivered in order, the returned
      `errbel`, and the returned status. */
  datatype Delivery = Delivery(lines: seq<string>, errbel: BellArg, status: int)

  function Max0(w: int): nat {
    if w < 0 then 0 else w
  }

  /** The contract assumed of the splitter: from position `p` of `text`
      with width `w`, a piece of at most `w` characters, and a next
      position that is 0 (finished) or further on. */
  ghost predicate Splitter(form: (string, int, nat) -> (string, nat), text: string) {
    forall w: int, p: nat :: p <= |text| ==>
      && |form(text, w, p).0| <= Max0(w)
      && (form(text, w, p).1 == 0 || p < form(text, w, p).1 <= |text|)
  }

  /** Whether the bell is rung. */
  function RingsBell(errbel: BellArg, g: Guard): bool {
    match g
    case AsWritten => errbel.BellFlag?
    case Corrected => errbel.BellFlag? && errbel.value
  }

  /** The continuation lines, from position `p` on, each of width
      `errwsz - 6` after its prefix, until the splitter reports the end. */
  function Continuation(text: string, errwsz: int, p: nat,
                        form: (string, int, nat) -> (string, nat)): (ls: seq<string>)
    requires Splitter(form, text)
    requires 0 < p <= |text|
    ensures 1 <= |ls| <= |text| - p + 1
    decreases |text| - p
  {
    var piece := form(text, errwsz - |Constr|, p).0;
    var next := form(text, errwsz - |Constr|, p).1;
    [Constr + piece] + (if next == 0 then [] else Continuation(text, errwsz, next, form))
  }

  /** The lines of one message. */
  function Lines(text: string, bell: bool, errwsz: int, errstm: bool,
                 form: (string, int, nat) -> (string, nat)): (ls: seq<string>)
    requires Splitter(form, text)
    ensures |ls| >= 1
  {
    var lstart := if bell then 1 else 0;
    if |text| == 0 then ["!!"]
    else if errstm then (if bell then ["\U{7}"] else []) + [text]
    else
      var piece := form(text, errwsz - lstart, 0).0;
      var next := form(text, errwsz - lstart, 0).1;
      [(if bell then "\U{7}" else "") + piece]
      + (if next == 0 then [] else Continuation(text, errwsz, next, form))
  }

  /** `err1Print`. `deliver` gives the local status once the lines have
      been written; `errwsz` and `errstm` are the tuning parameters. */
  function Err1Print(text: string, errbel: BellArg, status: int, errwsz: int, errstm: bool,
                     form: (string, int, nat) -> (string, nat), deliver: seq<string> -> int,
                     g: Guard): (d: Delivery)
    requires Splitter(form, text)
    ensures RingsBell(errbel, g) ==> d.errbel == BellFlag(false)
    ensures !RingsBell(errbel, g) ==> d.errbel == errbel
    ensures |d.lines| >= 1
    ensures |text| == 0 ==> d.lines == ["!!"]
    ensures |text| > 0 && errstm ==> && |d.lines| == (if RingsBell(errbel, g) then 2 else 1)
                                      && d.lines[|d.lines| - 1] == text
                                      && (RingsBell(errbel, g) ==> d.lines[0] == "\U{7}")
    ensures deliver(d.lines) != SaiOk ==> d.status == deliver(d.lines)
    ensures deliver(d.lines) == SaiOk ==> d.status == status
  {
    var bell := RingsBell(errbel, g);
    var lines := Lines(text, bell, errwsz, errstm, form);
    var lstat := deliver(lines);
    Delivery(lines, if bell then BellFlag(false) else errbel,
             if lstat != SaiOk then lstat else status)
  }

  /** The text the Fortran wrapper hands on: the CHARACTER argument with
      its trailing blanks removed, as `F77_IMPORT_CHARACTER` copies it. */
  function ImportText(t: string): (s: string)
    ensures IsPrefix(s, t)
    ensures |s| == 0 || s[|s| - 1] != ' '
    ensures forall i :: |s| <= i < |t| ==> t[i] == ' '
    ensures forall i :: 0 <= i < |t| && t[i] != ' ' ==> i < |s|
    decreases |t|
  {
    if |t| > 0 && t[|t| - 1] == ' ' then ImportText(t[..|t| - 1]) else t
  }

  /** The Fortran wrapper: the text is imported without its trailing
      blanks, and the flag is passed by address, so the pointer is never
      NULL. The delivery's `errbel` is the LOGICAL handed back: `.FALSE.`
      under either test, since a set flag is always cleared. */
  function Err1PrintF(text: string, errbel: bool, status: int, errwsz: int, errstm: bool,
                      form: (string, int, nat) -> (string, nat), deliver: seq<string> -> int,
                      g: Guard): (d: Delivery)
    requires Splitter(form, ImportText(text))
    ensures d.errbel == BellFlag(errbel && !RingsBell(BellFlag(errbel), g))
    ensures d.errbel == BellFlag(false)
    ensures |d.lines| >= 1
    ensures (forall i :: 0 <= i < |text| ==> text[i] == ' ') ==> d.lines == ["!!"]
    ensures errstm && (exists i :: 0 <= i < |text| && text[i] != ' ') ==>
              && |d.lines[|d.lines| - 1]| > 0
              && IsPrefix(d.lines[|d.lines| - 1], text)
              && d.lines[|d.lines| - 1][|d.lines[|d.lines| - 1]| - 1] != ' '
              && (forall i :: |d.lines[|d.lines| - 1]| <= i < |text| ==> text[i] == ' ')
  {
    var t := ImportText(text);
    Err1Print(t, BellFlag(errbel), status, errwsz, errstm, form, deliver, g)
  }

  /** A message with no trailing blank reaches `err1Print` unchanged, so
      the wrapper delivers exactly the lines of the C routine. */
  lemma WrapperKeepsUnpaddedText(text: string, errbel: bool, status: int, errwsz: int,
                                 errstm: bool, form: (string, int, nat) -> (string, nat),
                                 deliver: seq<string> -> int, g: Guard)
    requires |text| > 0 && text[|text| - 1] != ' '
    requires Splitter(form, text)
    ensures ImportText(text) == text
    ensures Err1PrintF(text, errbel, status, errwsz, errstm, form, deliver, g)
            == Err1Print(text, BellFlag(errbel), status, errwsz, errstm, form, deliver, g)
  {
  }

  // ---------------------------------------------------------------------
  // Properties of the line sequence
  // ---------------------------------------------------------------------

  /** Every continuation line carries the prefix and is no wider than
      `errwsz`. */
  lemma {:induction false} ContinuationShape(text: string, errwsz: int, p: nat,
                                             form: (string, int, nat) -> (string, nat))
    requires Splitter(form, text) && errwsz >= |Constr|
    requires 0 < p <= |text|
    ensures forall i :: 0 <= i < |Continuation(text, errwsz, p, form)| ==>
              IsPrefix(Constr, Continuation(text, errwsz, p, form)[i])
              && |Continuation(text, errwsz, p, form)[i]| <= errwsz
    decreases |text| - p
  {
    var piece := form(text, errwsz - |Constr|, p).0;
    var next := form(text, errwsz - |Constr|, p).1;
    assert |piece| <= errwsz - |Constr|;
    assert (Constr + piece)[..|Constr|] == Constr;
    if next != 0 {
      ContinuationShape(text, errwsz, next, form);
    }
  }

  /** In wrap mode (with a width of at least the prefix), the first line
      starts with the bell when it is rung, every line is no
      wider than `errwsz`, every later line is a continuation, and there
      are at most one more lines than characters. */
  lemma WrapShape(text: string, bell: bool, errwsz: int,
                  form: (string, int, nat) -> (string, nat))
    requires Splitter(form, text) && errwsz >= |Constr| && |text| > 0
    ensures var ls := Lines(text, bell, errwsz, false, form);
            && 1 <= |ls| <= |text| + 1
            && (bell ==> |ls[0]| > 0 && ls[0][0] == '\U{7}')
            && (forall i :: 0 <= i < |ls| ==> |ls[i]| <= errwsz)
            && (forall i :: 1 <= i < |ls| ==> IsPrefix(Constr, ls[i]))
  {
    var lstart := if bell then 1 else 0;
    var piece := form(text, errwsz - lstart, 0).0;
    var next := form(text, errwsz - lstart, 0).1;
    var first := (if bell then "\U{7}" else "") + piece;
    assert |piece| <= errwsz - lstart;
    if next != 0 {
      var cs := Continuation(text, errwsz, next, form);
      ContinuationShape(text, errwsz, next, form);
      var ls := [first] + cs;
      forall i | 1 <= i < |ls| ensures IsPrefix(Constr, ls[i]) && |ls[i]| <= errwsz {
        assert ls[i] == cs[i - 1];
      }
    }
  }

  // ---------------------------------------------------------------------
  // The bell test
  // ---------------------------------------------------------------------

  /** As written, the wrapper rings the bell whatever the flag says: the
      lines are those of a call asking for the bell, and a non-empty
      message starts with it. */
  lemma AsWrittenWrapperAlwaysRings(text: string, errbel: bool, status: int, errwsz: int,
                                    errstm: bool, form: (string, int, nat) -> (string, nat),
                                    deliver: seq<string> -> int)
    requires Splitter(form, text) && errwsz >= |Constr| && |text| > 0
    ensures var d := Err1Print(text, BellFlag(errbel), status, errwsz, errstm, form, deliver, AsWritten);
            && d.lines == Lines(text, true, errwsz, errstm, form)
            && |d.lines[0]| > 0 && d.lines[0][0] == '\U{7}'
  {
    if !errstm {
      WrapShape(text, true, errwsz, form);
    }
  }

  /** Corrected, the bell is rung exactly when the flag asks for it, and
      a NULL pointer never rings it. */
  lemma CorrectedBellFollowsFlag(text: string, errbel: BellArg, status: int, errwsz: int,
                                 errstm: bool, form: (string, int, nat) -> (string, nat),
                                 deliver: seq<string> -> int)
    requires Splitter(form, text)
    ensures var d := Err1Print(text, errbel, status, errwsz, errstm, form, deliver, Corrected);
            && d.lines == Lines(text, errbel.BellFlag? && errbel.value, errwsz, errstm, form)
            && d.errbel == (if errbel.BellFlag? then BellFlag(false) else NoBell)
  {
  }

  /** An empty message clears a set flag although no bell goes out. */
  lemma EmptyTextClearsBell(status: int, errwsz: int, errstm: bool,
                            form: (string, int, nat) -> (string, nat),
                            deliver: seq<string> -> int, g: Guard)
    requires Splitter(form, "")
    ensures var d := Err1Print("", BellFlag(true), status, errwsz, errstm, form, deliver, g);
            && d.errbel == BellFlag(false)
            && (forall i :: 0 <= i < |d.lines| ==> '\U{7}' !in d.lines[i])
  {
  }
}
