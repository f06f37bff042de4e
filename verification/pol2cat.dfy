/** SMURF's `pol2cat` script: the sequence of Starlink commands it runs
    to turn POL-2 time series into a catalogue of polarisation vectors.

    The commands themselves are not modelled: each one is a step naming
    the tool, the data it reads, the data it writes and the options that
    matter here (WCS frame, graphics device, selection expression, pixel
    scale). What the data contains is left out; which subarrays hold
    data, whether the pasted cube has a POLANAL frame, and which command
    (if any) fails are parameters. The model follows the order of the
    script exactly, including its two undefined names and its background
    test, and gives the corrected reading of each beside it. */
module Pol2Cat {
  import opened Common

  // ---------------------------------------------------------------------
  // Data
  // ---------------------------------------------------------------------

  /** The eight SCUBA-2 subarrays. */
  datatype Subarray = S4A | S4B | S4C | S4D | S8A | S8B | S8C | S8D

  /** The order in which the script visits the subarrays. */
  const Order: seq<Subarray> := [S4A, S4B, S4C, S4D, S8A, S8B, S8C, S8D]

  datatype Stokes = Q | U

  /** The stages of the per-subarray background removal: the images of
      the subarray, their mean, the fitted mean, the difference, the
      cleaned difference and the subarray mosaic. */
  datatype Stage = Arr | Com | Nm | Diff | Ffb | Mos

  /** The data sets the commands pass between them. */
  datatype Data =
    | InData                                  // the input time series
    | Cont(s: Stokes)                         // CALCQU output containers
    | Ff(s: Stokes)                           // their despiked copies
    | Part(s: Stokes, stage: Stage, a: Subarray)
    | RefImage(a: Subarray)                   // the first cleaned Q image of a subarray
    | AlignedRef                              // the reference resampled onto IREF
    | ScaledRef                               // the reference squashed to PIXSIZE
    | NoRef                                   // the word "None" where no reference exists
    | Total(s: Stokes)
    | IRef                                    // the total intensity map supplied
    | SynthI                                  // the artificial total intensity map
    | AlignedI                                // IREF resampled onto the reference
    | Overlap
    | Trim(s: Stokes)
    | ITrim
    | Cube
    | OutCat
    | PiMap
    | SelCat

  datatype Tool = CalcQU | FfClean | WcsFrame | WcsMosaic | Normalize | Sub | WcsAlign | SqOrSt
                | Maths | NdfCopy | Paste | WcsAttrib | PolExt | PolVec | CatSelect | LuTable
                | Display | PolPlot

  /** The options the model keeps. */
  datatype Opt = Frame(name: string) | Dev(name: string) | Expr(text: string) | PixelScale(size: real)

  /** One command run. */
  datatype Step = Call(tool: Tool, ins: seq<Data>, outs: seq<Data>, opts: seq<Opt>)

  /** The script's parameters. `device` is the DEVICE value after shell
      quoting; `debug` says ILEVEL or GLEVEL is at least DEBUG; `snr` and
      `maxlen` are the numbers as the script formats them. */
  datatype Params = Params(iref: bool, pimap: bool, pixsize: Option<real>, plot: Option<string>,
                           snr: string, maxlen: Option<string>, retain: bool,
                           device: Option<string>, debug: bool, domain: string)

  /** How the script ends: normally (with or without deleting the
      temporary NDFs), by printing a caught StarUtilError, or by an
      uncaught NameError. */
  datatype Ending = Finished(ndgCleaned: bool) | Reported | Crashed(name: string)

  datatype Run = Run(steps: seq<Step>, ending: Ending)

  /** The script as written, or with its three slips corrected. */
  datatype Guard = AsWritten | Corrected

  /** Whether any temporary file is deleted when the script ends. */
  predicate CleansUp(e: Ending) {
    e.Finished? && e.ndgCleaned
  }

  /** The despiked CALCQU output is read by no step. */
  predicate SkipsDespiked(steps: seq<Step>) {
    NotRead(steps, Ff(Q)) && NotRead(steps, Ff(U))
  }

  /** A step of the subarray loop: it reads no despiked CALCQU output,
      runs one of the loop's tools, and writes only subarray images or
      the reference. */
  predicate SubarrayWork(st: Step, p: Params) {
    && Ff(Q) !in st.ins && Ff(U) !in st.ins
    && st.tool in {WcsFrame, WcsMosaic, Normalize, Sub, FfClean, WcsAlign, SqOrSt}
    && (forall d | d in st.outs :: d.Part? || d == AlignedRef || d == ScaledRef)
    && (st.tool == Normalize ==> st.opts == [Dev(NDevice(p))])
  }

  predicate AllSubarrayWork(steps: seq<Step>, p: Params) {
    forall i | 0 <= i < |steps| :: SubarrayWork(steps[i], p)
  }

  /** `d` is read by no step. */
  predicate NotRead(steps: seq<Step>, d: Data) {
    forall i | 0 <= i < |steps| :: d !in steps[i].ins
  }

  /** No step builds a reference map. */
  predicate NoBuild(steps: seq<Step>) {
    forall i | 0 <= i < |steps| :: steps[i].tool != WcsAlign && steps[i].tool != SqOrSt
  }

  /** Every mosaic onto a reference uses `r`. */
  predicate SameRef(steps: seq<Step>, r: Data) {
    forall i | 0 <= i < |steps| && steps[i].tool == WcsMosaic && |steps[i].ins| == 2 ::
      steps[i].ins[1] == r
  }

  // ---------------------------------------------------------------------
  // Parameters
  // ---------------------------------------------------------------------

  /** A pixel size is used when one is given and it is not zero. */
  predicate PixsizeGiven(p: Params) {
    p.pixsize.Some? && p.pixsize.value != 0.0
  }

  /** The plotting device: "!" (none) when DEVICE is null. */
  function Device(p: Params): string {
    if p.device.None? then "!" else p.device.value
  }

  /** The device for the normalisation plots: the plotting device at
      DEBUG level, "!" otherwise. */
  function NDevice(p: Params): (d: string)
    ensures d == "!" || d == Device(p)
    ensures p.debug ==> d == Device(p)
    ensures d != "!" ==> p.debug && p.device.Some?
  {
    if p.device.Some? && p.debug then p.device.value else "!"
  }

  /** The CURSA selection: signal to noise above `snr`, and the plotted
      quantity below `maxlen` when one is given. */
  function Selection(snr: string, plot: string, maxlen: Option<string>): (e: string)
    ensures IsPrefix("pi>" + snr + "*dpi", e)
    ensures maxlen.None? ==> |e| == |"pi>" + snr + "*dpi"|
    ensures maxlen.Some? ==> e[|"pi>" + snr + "*dpi"|..] == "&" + plot + "<" + maxlen.value
  {
    var base := "pi>" + snr + "*dpi";
    if maxlen.None? then base else base + ("&" + plot + "<" + maxlen.value)
  }

  // ---------------------------------------------------------------------
  // The steps
  // ---------------------------------------------------------------------

  /** CALCQU and the despiking of its output. */
  function Head(): seq<Step> {
    [ Call(CalcQU, [InData], [Cont(Q), Cont(U)], []),
      Call(FfClean, [Cont(Q)], [Ff(Q)], []),
      Call(FfClean, [Cont(U)], [Ff(U)], []) ]
  }

  /** The background removal for one Stokes parameter of one subarray:
      the images are taken from the CALCQU containers. */
  function Cleaning(s: Stokes, a: Subarray, p: Params): seq<Step> {
    [ Call(WcsFrame, [Part(s, Arr, a)], [], [Frame("PIXEL")]),
      Call(WcsMosaic, [Part(s, Arr, a)], [Part(s, Com, a)], []),
      Call(Normalize, [Part(s, Com, a), Part(s, Arr, a)], [Part(s, Nm, a)], [Dev(NDevice(p))]),
      Call(Sub, [Part(s, Arr, a), Part(s, Nm, a)], [Part(s, Diff, a)], []),
      Call(FfClean, [Part(s, Diff, a)], [Part(s, Ffb, a)], []) ]
  }

  /** Both Stokes parameters, then the alignment frame. */
  function Prepare(a: Subarray, p: Params): seq<Step> {
    Cleaning(Q, a, p) + Cleaning(U, a, p)
    + [ Call(WcsFrame, [Part(Q, Ffb, a)], [], [Frame(p.domain)]),
        Call(WcsFrame, [Part(U, Ffb, a)], [], [Frame(p.domain)]) ]
  }

  /** The steps that build the reference map, the map built, and whether
      the build stopped on the undefined name. */
  datatype Build = Build(steps: seq<Step>, ref: Data, crashed: bool)

  /** Building the reference from the first cleaned Q image of `a`:
      resampled onto IREF when given, then squashed to PIXSIZE when one
      is given. As written, the squash names the undefined `pixscale`. */
  function RefSteps(a: Subarray, p: Params, g: Guard): (b: Build)
    ensures b.crashed <==> g.AsWritten? && PixsizeGiven(p)
    ensures !b.crashed ==> b.ref == RefOf(a, p)
  {
    var first := RefImage(a);
    var aligned := if p.iref then [Call(WcsAlign, [first, IRef], [AlignedRef], [])] else [];
    var r := if p.iref then AlignedRef else first;
    if !PixsizeGiven(p) then Build(aligned, r, false)
    else if g.AsWritten? then Build(aligned, r, true)
    else Build(aligned + [Call(SqOrSt, [r], [ScaledRef], [PixelScale(p.pixsize.value)])], ScaledRef, false)
  }

  /** The reference map built from subarray `a`, named independently of
      the steps: squashed if a pixel size is given, else aligned to IREF
      if given, else the first Q image itself. */
  function RefOf(a: Subarray, p: Params): Data {
    if PixsizeGiven(p) then ScaledRef else if p.iref then AlignedRef else RefImage(a)
  }

  /** The two subarray mosaics onto the reference. */
  function Mosaics(a: Subarray, r: Data): seq<Step> {
    [ Call(WcsMosaic, [Part(Q, Ffb, a), r], [Part(Q, Mos, a)], []),
      Call(WcsMosaic, [Part(U, Ffb, a), r], [Part(U, Mos, a)], []) ]
  }

  /** The steps for one subarray with data, given its reference. */
  function Block(a: Subarray, p: Params, b: Build): seq<Step> {
    Prepare(a, p) + b.steps + Mosaics(a, b.ref)
  }

  /** The state after the subarray loop: the steps run, the reference (if
      built), the subarray mosaics in insertion order, and whether the
      loop stopped on the undefined name. */
  datatype Pass = Pass(steps: seq<Step>, ref: Option<Data>, qmos: seq<Data>, umos: seq<Data>,
                       crashed: bool)

  /** The subarray loop over `subs` (the remaining names of `Order`);
      `present` holds the subarrays with data. */
  function Loop(subs: seq<Subarray>, present: set<Subarray>, ref: Option<Data>, p: Params,
                g: Guard): (r: Pass)
    ensures ref.Some? ==> !r.crashed && r.ref == ref
    decreases |subs|
  {
    if |subs| == 0 then Pass([], ref, [], [], false)
    else
      var a := subs[0];
      if a !in present then Loop(subs[1..], present, ref, p, g)
      else
        var b := if ref.Some? then Build([], ref.value, false) else RefSteps(a, p, g);
        if b.crashed then Pass(Prepare(a, p) + b.steps, None, [], [], true)
        else
          var rest := Loop(subs[1..], present, Some(b.ref), p, g);
          Pass(Block(a, p, b) + rest.steps, rest.ref,
               [Part(Q, Mos, a)] + rest.qmos, [Part(U, Mos, a)] + rest.umos, rest.crashed)
  }

  /** Whether the background image is displayed under the vectors. As
      written the test is made on a variable that always holds an image
      by then. */
  function Background(p: Params, g: Guard): bool {
    if g.AsWritten? then true else p.iref
  }

  /** The plotting steps. */
  function Plotting(p: Params, g: Guard): seq<Step>
    requires p.plot.Some?
  {
    var dev := Device(p);
    [Call(CatSelect, [OutCat], [SelCat], [Expr(Selection(p.snr, p.plot.value, p.maxlen))])]
    + (if Background(p, g)
       then [ Call(LuTable, [], [], [Dev(dev)]),
              Call(Display, [Cube], [], [Dev(dev)]),
              Call(PolPlot, [SelCat], [], [Dev(dev)]) ]
       else [Call(PolPlot, [SelCat], [], [Dev(dev)])])
  }

  /** The total intensity map used: IREF, its resampled copy when a
      pixel size is given, or the artificial one. */
  function IMap(p: Params): Data {
    if !p.iref then SynthI else if PixsizeGiven(p) then AlignedI else IRef
  }

  /** The total Q and U mosaics of the subarray mosaics, onto the
      reference. */
  function Totals(r: Data, qmos: seq<Data>, umos: seq<Data>): seq<Step> {
    [ Call(WcsMosaic, qmos + [r], [Total(Q)], []),
      Call(WcsMosaic, umos + [r], [Total(U)], []) ]
  }

  /** Making the total intensity map: artificial from Q and U without
      IREF, IREF resampled onto the reference with a pixel size. */
  function Intensity(p: Params, r: Data): seq<Step> {
    if !p.iref then [Call(Maths, [Total(Q), Total(U)], [SynthI], [])]
    else if PixsizeGiven(p) then [Call(WcsAlign, [IRef, r], [AlignedI], [])]
    else []
  }

  /** Trimming the three maps to their overlap and pasting them into a
      cube. */
  function Trimming(i: Data): seq<Step> {
    [ Call(Maths, [Total(Q), Total(U), i], [Overlap], []),
      Call(NdfCopy, [Total(Q), Overlap], [Trim(Q)], []),
      Call(NdfCopy, [Total(U), Overlap], [Trim(U)], []),
      Call(NdfCopy, [i, Overlap], [ITrim], []),
      Call(Paste, [Trim(Q), Trim(U), ITrim], [Cube], []) ]
  }

  /** Total mosaics, the total intensity map, trimming and pasting. */
  function Assemble(p: Params, r: Data, qmos: seq<Data>, umos: seq<Data>): seq<Step> {
    Totals(r, qmos, umos) + Intensity(p, r) + Trimming(IMap(p))
  }

  /** The test for a POLANAL frame in the cube. */
  const PolanalTest: Step := Call(WcsFrame, [Cube], [], [Frame("POLANAL")])

  /** The fallback when the cube has no POLANAL frame. */
  function Fallback(): seq<Step> {
    [ Call(WcsFrame, [Cube], [], [Frame("POLANAL-")]),
      Call(WcsAttrib, [Cube], [], [Frame("POLANAL")]) ]
  }

  /** Setting up the cube for POLPACK and making the catalogue (and PI
      map). */
  function Catalogue(p: Params): seq<Step> {
    [ Call(WcsFrame, [Cube], [], [Frame(p.domain)]),
      Call(PolExt, [Cube], [], []),
      Call(PolVec, [Cube], [OutCat] + (if p.pimap then [PiMap] else []), []) ]
  }

  /** The vectors: the catalogue, then the plot if asked for. */
  function Vectors(p: Params, g: Guard): seq<Step> {
    Catalogue(p) + (if p.plot.Some? then Plotting(p, g) else [])
  }

  /** The reference as the script passes it on: "None" when none was
      built. */
  function RefOrNone(ref: Option<Data>): Data {
    if ref.Some? then ref.value else NoRef
  }

  /** Everything after the subarray loop. */
  function Finish(p: Params, pass: Pass, polanalOk: bool, g: Guard): (r: Run)
    ensures r.ending.Finished? || r.ending == Crashed("AtaskError")
  {
    var ref := RefOrNone(pass.ref);
    var built := pass.steps + Assemble(p, ref, pass.qmos, pass.umos) + [PolanalTest];
    if !polanalOk && g.AsWritten? then Run(built, Crashed("AtaskError"))
    else
      var fixed := if polanalOk then [] else Fallback();
      Run(built + fixed + Vectors(p, g), Finished(!p.retain))
  }

  /** The whole script when every command succeeds; `present` holds the
      subarrays with data, `polanalOk` says the pasted cube has a POLANAL
      frame. */
  function Pol2Cat(p: Params, present: set<Subarray>, polanalOk: bool, g: Guard): (r: Run)
    ensures r.ending.Finished? ==> r.ending.ndgCleaned == !p.retain
    ensures !r.ending.Finished? ==> !CleansUp(r.ending)
  {
    var pass := Loop(Order, present, None, p, g);
    if pass.crashed then Run(Head() + pass.steps, Crashed("pixscale"))
    else Finish(p, Pass(Head() + pass.steps, pass.ref, pass.qmos, pass.umos, false), polanalOk, g)
  }

  /** The script when the `k`-th command (from 0) raises a StarUtilError:
      the commands up to and including it run, the message is printed,
      and nothing is cleaned up. */
  function Failing(run: Run, k: nat): (r: Run)
    ensures k < |run.steps| ==> r.ending == Reported && |r.steps| == k + 1
                                && r.steps == run.steps[..k + 1]
    ensures k >= |run.steps| ==> r == run
    ensures !CleansUp(r.ending) || r == run
  {
    if k < |run.steps| then Run(run.steps[..k + 1], Reported) else run
  }

  // ---------------------------------------------------------------------
  // The subarray loop
  // ---------------------------------------------------------------------

  /** The subarrays of `subs` that hold data, in order. */
  function Present(subs: seq<Subarray>, present: set<Subarray>): (xs: seq<Subarray>)
    ensures forall a :: a in xs <==> a in subs && a in present
    decreases |subs|
  {
    if |subs| == 0 then []
    else (if subs[0] in present then [subs[0]] else []) + Present(subs[1..], present)
  }

  /** The mosaics named for a list of subarrays. */
  function MosOf(s: Stokes, xs: seq<Subarray>): (ds: seq<Data>)
    ensures |ds| == |xs|
    ensures forall i :: 0 <= i < |xs| ==> ds[i] == Part(s, Mos, xs[i])
    decreases |xs|
  {
    if |xs| == 0 then [] else [Part(s, Mos, xs[0])] + MosOf(s, xs[1..])
  }

  /** The loop stops on the undefined name exactly when, as written, it
      has to build the reference (none yet and a subarray with data) with
      a pixel size given. */
  lemma {:induction false} LoopCrash(subs: seq<Subarray>, present: set<Subarray>, p: Params,
                                     g: Guard)
    ensures Loop(subs, present, None, p, g).crashed
            <==> g.AsWritten? && PixsizeGiven(p) && |Present(subs, present)| > 0
    decreases |subs|
  {
    if |subs| > 0 && subs[0] !in present {
      LoopCrash(subs[1..], present, p, g);
    }
  }

  /** When the loop runs to its end, the subarray mosaics are those of
      the subarrays with data, in the fixed order. */
  lemma {:induction false} LoopMosaics(subs: seq<Subarray>, present: set<Subarray>,
                                       ref: Option<Data>, p: Params, g: Guard)
    requires !Loop(subs, present, ref, p, g).crashed
    ensures Loop(subs, present, ref, p, g).qmos == MosOf(Q, Present(subs, present))
    ensures Loop(subs, present, ref, p, g).umos == MosOf(U, Present(subs, present))
    decreases |subs|
  {
    if |subs| > 0 {
      var a := subs[0];
      var b := if ref.Some? then Build([], ref.value, false) else RefSteps(a, p, g);
      var xs := Present(subs[1..], present);
      if a !in present {
        assert Present(subs, present) == xs;
        LoopMosaics(subs[1..], present, ref, p, g);
      } else {
        assert Present(subs, present) == [a] + xs;
        assert ([a] + xs)[1..] == xs;
        LoopMosaics(subs[1..], present, Some(b.ref), p, g);
      }
    }
  }

  lemma WorkJoin(xs: seq<Step>, ys: seq<Step>, p: Params)
    requires AllSubarrayWork(xs, p) && AllSubarrayWork(ys, p)
    ensures AllSubarrayWork(xs + ys, p)
  {
  }

  lemma NoBuildJoin(xs: seq<Step>, ys: seq<Step>)
    requires NoBuild(xs) && NoBuild(ys)
    ensures NoBuild(xs + ys)
  {
  }

  lemma SameRefJoin(xs: seq<Step>, ys: seq<Step>, r: Data)
    requires SameRef(xs, r) && SameRef(ys, r)
    ensures SameRef(xs + ys, r)
  {
  }

  /** The background removal of one subarray reads only that subarray's
      images, builds no reference and mosaics onto none. */
  lemma PrepareFacts(a: Subarray, p: Params, r: Data)
    ensures AllSubarrayWork(Prepare(a, p), p)
    ensures NoBuild(Prepare(a, p)) && SameRef(Prepare(a, p), r)
  {
  }

  /** Building the reference is subarray work. */
  lemma RefStepsFacts(a: Subarray, p: Params, g: Guard)
    ensures AllSubarrayWork(RefSteps(a, p, g).steps, p) && !RefSteps(a, p, g).ref.Ff?
    ensures SameRef(RefSteps(a, p, g).steps, RefSteps(a, p, g).ref)
  {
  }

  lemma MosaicsFacts(a: Subarray, r: Data, p: Params)
    ensures NoBuild(Mosaics(a, r)) && SameRef(Mosaics(a, r), r)
    ensures !r.Ff? ==> AllSubarrayWork(Mosaics(a, r), p)
  {
  }

  /** One subarray's steps are all subarray work. */
  lemma BlockIsSubarrayWork(a: Subarray, p: Params, b: Build, g: Guard)
    requires (b.steps == [] && !b.ref.Ff?) || b == RefSteps(a, p, g)
    ensures AllSubarrayWork(Prepare(a, p) + b.steps, p)
    ensures AllSubarrayWork(Block(a, p, b), p)
  {
    PrepareFacts(a, p, b.ref);
    RefStepsFacts(a, p, g);
    MosaicsFacts(a, b.ref, p);
    WorkJoin(Prepare(a, p), b.steps, p);
    WorkJoin(Prepare(a, p) + b.steps, Mosaics(a, b.ref), p);
  }

  /** Every step of the loop is subarray work: in particular the
      despiked CALCQU output is never read, the images being taken from
      the containers themselves. */
  lemma {:induction false} LoopIsSubarrayWork(subs: seq<Subarray>, present: set<Subarray>,
                                              ref: Option<Data>, p: Params, g: Guard)
    requires ref.None? || !ref.value.Ff?
    ensures AllSubarrayWork(Loop(subs, present, ref, p, g).steps, p)
    decreases |subs|
  {
    if |subs| > 0 {
      var a := subs[0];
      var b := if ref.Some? then Build([], ref.value, false) else RefSteps(a, p, g);
      if a !in present {
        LoopIsSubarrayWork(subs[1..], present, ref, p, g);
      } else {
        BlockIsSubarrayWork(a, p, b, g);
        if !b.crashed {
          LoopIsSubarrayWork(subs[1..], present, Some(b.ref), p, g);
          WorkJoin(Block(a, p, b), Loop(subs[1..], present, Some(b.ref), p, g).steps, p);
        }
      }
    }
  }

  /** Once a reference exists the loop builds none, and every subarray
      mosaic is made onto it. */
  lemma {:induction false} LoopKeepsRef(subs: seq<Subarray>, present: set<Subarray>, r: Data,
                                        p: Params, g: Guard)
    ensures NoBuild(Loop(subs, present, Some(r), p, g).steps)
    ensures SameRef(Loop(subs, present, Some(r), p, g).steps, r)
    decreases |subs|
  {
    if |subs| > 0 {
      var a := subs[0];
      LoopKeepsRef(subs[1..], present, r, p, g);
      if a in present {
        var b := Build([], r, false);
        var rest := Loop(subs[1..], present, Some(r), p, g);
        PrepareFacts(a, p, r);
        MosaicsFacts(a, r, p);
        assert Block(a, p, b) == Prepare(a, p) + Mosaics(a, r);
        NoBuildJoin(Prepare(a, p), Mosaics(a, r));
        SameRefJoin(Prepare(a, p), Mosaics(a, r), r);
        NoBuildJoin(Block(a, p, b), rest.steps);
        SameRefJoin(Block(a, p, b), rest.steps, r);
      }
    }
  }

  /** Starting with no reference, the reference is built from the first
      subarray with data, and every subarray mosaic is made onto it. */
  lemma {:induction false} LoopRef(subs: seq<Subarray>, present: set<Subarray>, p: Params,
                                   g: Guard)
    requires !Loop(subs, present, None, p, g).crashed
    ensures var xs := Present(subs, present);
            && (|xs| == 0 ==> Loop(subs, present, None, p, g).ref.None?)
            && (|xs| > 0 ==> Loop(subs, present, None, p, g).ref == Some(RefOf(xs[0], p)))
    ensures |Present(subs, present)| == 0
            || SameRef(Loop(subs, present, None, p, g).steps, RefOf(Present(subs, present)[0], p))
    decreases |subs|
  {
    if |subs| > 0 {
      var a := subs[0];
      if a !in present {
        LoopRef(subs[1..], present, p, g);
      } else {
        var b := RefSteps(a, p, g);
        var r := RefOf(a, p);
        var rest := Loop(subs[1..], present, Some(r), p, g);
        LoopKeepsRef(subs[1..], present, r, p, g);
        PrepareFacts(a, p, r);
        RefStepsFacts(a, p, g);
        MosaicsFacts(a, r, p);
        SameRefJoin(Prepare(a, p), b.steps, r);
        SameRefJoin(Prepare(a, p) + b.steps, Mosaics(a, r), r);
        SameRefJoin(Block(a, p, b), rest.steps, r);
      }
    }
  }

  // ---------------------------------------------------------------------
  // The whole script
  // ---------------------------------------------------------------------

  /** No step runs tool `t`. */
  predicate NoTool(steps: seq<Step>, t: Tool) {
    forall i | 0 <= i < |steps| :: steps[i].tool != t
  }

  /** No step writes `d`. */
  predicate NoOut(steps: seq<Step>, d: Data) {
    forall i | 0 <= i < |steps| :: d !in steps[i].outs
  }

  /** The normalisation fits plot on the DEBUG-level device and the
      vector plot on the plotting device. */
  predicate DevicesRight(steps: seq<Step>, p: Params) {
    forall i | 0 <= i < |steps| ::
      && (steps[i].tool == Normalize ==> steps[i].opts == [Dev(NDevice(p))])
      && (steps[i].tool in {LuTable, Display, PolPlot} ==> steps[i].opts == [Dev(Device(p))])
  }

  /** The steps after the subarray loop, when the cube's frame is found
      or the fallback is taken. */
  function Tail(p: Params, r: Data, qmos: seq<Data>, umos: seq<Data>, polanalOk: bool,
                g: Guard): seq<Step> {
    Assemble(p, r, qmos, umos) + [PolanalTest] + (if polanalOk then [] else Fallback())
    + Vectors(p, g)
  }

  /** The reference the total mosaics use. */
  function TotalRef(xs: seq<Subarray>, p: Params): (r: Data)
    ensures r == NoRef || r == ScaledRef || r == AlignedRef || r.RefImage?
  {
    if |xs| == 0 then NoRef else RefOf(xs[0], p)
  }

  /** The loop stops on the undefined `pixscale`. */
  predicate PixscaleHit(p: Params, present: set<Subarray>, g: Guard) {
    g.AsWritten? && PixsizeGiven(p) && |Present(Order, present)| > 0
  }

  lemma Regroup<T>(h: seq<T>, l: seq<T>, a: seq<T>, t: seq<T>, f: seq<T>, v: seq<T>)
    ensures h + l + a + t + f + v == h + l + (a + t + f + v)
  {
  }

  lemma SkipsJoin(xs: seq<Step>, ys: seq<Step>)
    requires SkipsDespiked(xs) && SkipsDespiked(ys)
    ensures SkipsDespiked(xs + ys)
  {
  }

  lemma NoToolJoin(xs: seq<Step>, ys: seq<Step>, t: Tool)
    requires NoTool(xs, t) && NoTool(ys, t)
    ensures NoTool(xs + ys, t)
  {
  }

  lemma NoOutJoin(xs: seq<Step>, ys: seq<Step>, d: Data)
    requires NoOut(xs, d) && NoOut(ys, d)
    ensures NoOut(xs + ys, d)
  {
  }

  lemma DevicesJoin(xs: seq<Step>, ys: seq<Step>, p: Params)
    requires DevicesRight(xs, p) && DevicesRight(ys, p)
    ensures DevicesRight(xs + ys, p)
  {
  }

  /** A step that reads no despiked output and neither normalises,
      plots nor renames a frame. */
  predicate Neutral(st: Step) {
    && Ff(Q) !in st.ins && Ff(U) !in st.ins
    && st.tool !in {Normalize, LuTable, Display, PolPlot, WcsAttrib}
  }

  predicate AllNeutral(steps: seq<Step>) {
    forall i | 0 <= i < |steps| :: Neutral(steps[i])
  }

  lemma NeutralJoin(xs: seq<Step>, ys: seq<Step>)
    requires AllNeutral(xs) && AllNeutral(ys)
    ensures AllNeutral(xs + ys)
  {
  }

  lemma NeutralFacts(xs: seq<Step>, p: Params)
    requires AllNeutral(xs)
    ensures SkipsDespiked(xs) && DevicesRight(xs, p)
    ensures NoTool(xs, Display) && NoTool(xs, PolPlot) && NoTool(xs, WcsAttrib)
  {
    forall i | 0 <= i < |xs|
      ensures xs[i].tool !in {Normalize, LuTable, Display, PolPlot}
    {
      assert Neutral(xs[i]);
    }
  }

  /** What subarray work does not do. */
  lemma WorkFacts(xs: seq<Step>, p: Params)
    requires AllSubarrayWork(xs, p)
    ensures SkipsDespiked(xs) && DevicesRight(xs, p)
    ensures NoOut(xs, SynthI) && NoTool(xs, Display) && NoTool(xs, PolPlot) && NoTool(xs, WcsAttrib)
  {
    forall i | 0 <= i < |xs|
      ensures xs[i].tool !in {LuTable, Display, PolPlot} && SynthI !in xs[i].outs
    {
      assert SubarrayWork(xs[i], p);
    }
  }

  lemma HeadFacts()
    ensures AllNeutral(Head()) && NoOut(Head(), SynthI)
  {
  }

  /** The steps of the loop, the loop run from no reference. */
  lemma LoopFacts(p: Params, present: set<Subarray>, g: Guard)
    ensures var steps := Loop(Order, present, None, p, g).steps;
            && SkipsDespiked(steps) && DevicesRight(steps, p)
            && NoOut(steps, SynthI) && NoTool(steps, Display) && NoTool(steps, PolPlot)
            && NoTool(steps, WcsAttrib)
  {
    LoopIsSubarrayWork(Order, present, None, p, g);
    WorkFacts(Loop(Order, present, None, p, g).steps, p);
  }

  lemma TotalsFacts(r: Data, qmos: seq<Data>, umos: seq<Data>)
    requires !r.Ff? && (forall k | 0 <= k < |qmos| :: !qmos[k].Ff?)
    requires forall k | 0 <= k < |umos| :: !umos[k].Ff?
    ensures AllNeutral(Totals(r, qmos, umos)) && NoOut(Totals(r, qmos, umos), SynthI)
  {
    var steps := Totals(r, qmos, umos);
    assert steps[0].ins == qmos + [r] && steps[1].ins == umos + [r];
  }

  lemma IntensityFacts(p: Params, r: Data)
    requires !r.Ff?
    ensures AllNeutral(Intensity(p, r))
    ensures p.iref ==> NoOut(Intensity(p, r), SynthI)
  {
  }

  lemma TrimmingFacts(i: Data)
    requires !i.Ff?
    ensures AllNeutral(Trimming(i)) && NoOut(Trimming(i), SynthI)
  {
  }

  lemma AssembleFacts(p: Params, r: Data, qmos: seq<Data>, umos: seq<Data>)
    requires !r.Ff? && (forall k | 0 <= k < |qmos| :: !qmos[k].Ff?)
    requires forall k | 0 <= k < |umos| :: !umos[k].Ff?
    ensures var steps := Assemble(p, r, qmos, umos);
            && SkipsDespiked(steps) && DevicesRight(steps, p)
            && (p.iref ==> NoOut(steps, SynthI)) && NoTool(steps, Display) && NoTool(steps, PolPlot)
            && NoTool(steps, WcsAttrib)
  {
    var t := Totals(r, qmos, umos);
    var i := Intensity(p, r);
    var m := Trimming(IMap(p));
    TotalsFacts(r, qmos, umos);
    IntensityFacts(p, r);
    TrimmingFacts(IMap(p));
    if p.iref {
      NoOutJoin(t, i, SynthI);
      NoOutJoin(t + i, m, SynthI);
    }
    NeutralJoin(t, i);
    NeutralJoin(t + i, m);
    NeutralFacts(t + i + m, p);
  }

  lemma CatalogueFacts(p: Params)
    ensures AllNeutral(Catalogue(p)) && NoOut(Catalogue(p), SynthI)
  {
  }

  lemma PlottingFacts(p: Params, g: Guard)
    requires p.plot.Some?
    ensures var steps := Plotting(p, g);
            && SkipsDespiked(steps) && DevicesRight(steps, p) && NoOut(steps, SynthI)
            && NoTool(steps, WcsAttrib)
            && (!Background(p, g) ==> NoTool(steps, Display))
  {
  }

  lemma VectorsFacts(p: Params, g: Guard)
    ensures var steps := Vectors(p, g);
            && SkipsDespiked(steps) && DevicesRight(steps, p) && NoOut(steps, SynthI)
            && NoTool(steps, WcsAttrib)
            && (!(p.plot.Some? && Background(p, g)) ==> NoTool(steps, Display))
            && (p.plot.None? ==> NoTool(steps, PolPlot))
  {
    var c := Catalogue(p);
    CatalogueFacts(p);
    NeutralFacts(c, p);
    if p.plot.Some? {
      var pl := Plotting(p, g);
      PlottingFacts(p, g);
      SkipsJoin(c, pl);
      DevicesJoin(c, pl, p);
      NoOutJoin(c, pl, SynthI);
      NoToolJoin(c, pl, WcsAttrib);
      if !Background(p, g) {
        NoToolJoin(c, pl, Display);
      }
    } else {
      assert Vectors(p, g) == c;
    }
  }

  lemma FallbackFacts(p: Params)
    ensures AllNeutral([PolanalTest]) && NoOut([PolanalTest], SynthI) && NoOut(Fallback(), SynthI)
    ensures SkipsDespiked(Fallback()) && DevicesRight(Fallback(), p)
    ensures NoTool(Fallback(), Display) && NoTool(Fallback(), PolPlot)
  {
  }

  /** How the script ends: the undefined `pixscale` stops it when, as
      written, it builds a reference with a pixel size given; the
      undefined `AtaskError` stops it when, as written, the cube lacks a
      POLANAL frame; otherwise it finishes and deletes its temporary NDFs
      unless RETAIN is set. It never cleans up after stopping. */
  lemma PlanEnding(p: Params, present: set<Subarray>, polanalOk: bool, g: Guard)
    ensures Pol2Cat(p, present, polanalOk, g).ending
            == if PixscaleHit(p, present, g) then Crashed("pixscale")
               else if g.AsWritten? && !polanalOk then Crashed("AtaskError")
               else Finished(!p.retain)
  {
    LoopCrash(Order, present, p, g);
  }

  /** When the loop runs through, its reference is the one built from
      the first subarray with data and its mosaics are those of the
      subarrays with data, in order. */
  lemma LoopOutcome(p: Params, present: set<Subarray>, g: Guard)
    requires !PixscaleHit(p, present, g)
    ensures var pass := Loop(Order, present, None, p, g);
            && !pass.crashed
            && RefOrNone(pass.ref) == TotalRef(Present(Order, present), p)
            && pass.qmos == MosOf(Q, Present(Order, present))
            && pass.umos == MosOf(U, Present(Order, present))
  {
    LoopCrash(Order, present, p, g);
    LoopMosaics(Order, present, None, p, g);
    LoopRef(Order, present, p, g);
  }

  /** When the loop runs through, the script is the head, the loop and
      the tail, in that order. */
  lemma PlanSteps(p: Params, present: set<Subarray>, polanalOk: bool, g: Guard)
    requires !PixscaleHit(p, present, g)
    ensures var pass := Loop(Order, present, None, p, g);
            var r := RefOrNone(pass.ref);
            && (polanalOk || g.Corrected? ==>
                 Pol2Cat(p, present, polanalOk, g).steps
                 == Head() + pass.steps + Tail(p, r, pass.qmos, pass.umos, polanalOk, g))
            && (!polanalOk && g.AsWritten? ==>
                 Pol2Cat(p, present, polanalOk, g).steps
                 == Head() + pass.steps + (Assemble(p, r, pass.qmos, pass.umos) + [PolanalTest]))
  {
    LoopCrash(Order, present, p, g);
    var pass := Loop(Order, present, None, p, g);
    var r := RefOrNone(pass.ref);
    var a := Assemble(p, r, pass.qmos, pass.umos);
    var f := if polanalOk then [] else Fallback();
    Regroup(Head(), pass.steps, a, [PolanalTest], f, Vectors(p, g));
  }

  /** The facts about a run's steps gathered in one place. */
  predicate Facts(steps: seq<Step>, p: Params, polanalOk: bool, g: Guard) {
    && SkipsDespiked(steps) && DevicesRight(steps, p)
    && (p.iref ==> NoOut(steps, SynthI))
    && (!(p.plot.Some? && Background(p, g)) ==> NoTool(steps, Display))
    && (p.plot.None? ==> NoTool(steps, PolPlot))
    && (polanalOk ==> NoTool(steps, WcsAttrib))
  }

  lemma FactsJoin(xs: seq<Step>, ys: seq<Step>, p: Params, polanalOk: bool, g: Guard)
    requires Facts(xs, p, polanalOk, g) && Facts(ys, p, polanalOk, g)
    ensures Facts(xs + ys, p, polanalOk, g)
  {
    SkipsJoin(xs, ys);
    DevicesJoin(xs, ys, p);
    if p.iref {
      NoOutJoin(xs, ys, SynthI);
    }
    if !(p.plot.Some? && Background(p, g)) {
      NoToolJoin(xs, ys, Display);
    }
    if p.plot.None? {
      NoToolJoin(xs, ys, PolPlot);
    }
    if polanalOk {
      NoToolJoin(xs, ys, WcsAttrib);
    }
  }

  lemma NeutralHasFacts(xs: seq<Step>, p: Params, polanalOk: bool, g: Guard)
    requires AllNeutral(xs) && NoOut(xs, SynthI)
    ensures Facts(xs, p, polanalOk, g)
  {
    NeutralFacts(xs, p);
  }

  /** What the steps after the loop do and do not do. */
  lemma TailFacts(p: Params, r: Data, qmos: seq<Data>, umos: seq<Data>, polanalOk: bool, g: Guard)
    requires !r.Ff? && (forall k | 0 <= k < |qmos| :: !qmos[k].Ff?)
    requires forall k | 0 <= k < |umos| :: !umos[k].Ff?
    ensures Facts(Assemble(p, r, qmos, umos) + [PolanalTest], p, polanalOk, g)
    ensures Facts(Tail(p, r, qmos, umos, polanalOk, g), p, polanalOk, g)
  {
    var a := Assemble(p, r, qmos, umos);
    var f := if polanalOk then [] else Fallback();
    var v := Vectors(p, g);
    AssembleFacts(p, r, qmos, umos);
    FallbackFacts(p);
    NeutralHasFacts([PolanalTest], p, polanalOk, g);
    VectorsFacts(p, g);
    assert Facts(a, p, polanalOk, g);
    assert Facts(f, p, polanalOk, g);
    assert Facts(v, p, polanalOk, g);
    FactsJoin(a, [PolanalTest], p, polanalOk, g);
    FactsJoin(a + [PolanalTest], f, p, polanalOk, g);
    FactsJoin(a + [PolanalTest] + f, v, p, polanalOk, g);
  }

  /** When the loop stops, the script has run the head and the loop. */
  lemma CrashSteps(p: Params, present: set<Subarray>, polanalOk: bool, g: Guard)
    requires PixscaleHit(p, present, g)
    ensures Pol2Cat(p, present, polanalOk, g).steps == Head() + Loop(Order, present, None, p, g).steps
  {
    LoopCrash(Order, present, p, g);
  }

  lemma HeadLoopFacts(p: Params, present: set<Subarray>, polanalOk: bool, g: Guard)
    ensures Facts(Head() + Loop(Order, present, None, p, g).steps, p, polanalOk, g)
  {
    var pass := Loop(Order, present, None, p, g);
    HeadFacts();
    NeutralHasFacts(Head(), p, polanalOk, g);
    LoopFacts(p, present, g);
    assert Facts(pass.steps, p, polanalOk, g);
    FactsJoin(Head(), pass.steps, p, polanalOk, g);
  }

  lemma TailInput(p: Params, present: set<Subarray>, g: Guard)
    requires !PixscaleHit(p, present, g)
    ensures var pass := Loop(Order, present, None, p, g);
            && !RefOrNone(pass.ref).Ff?
            && (forall k | 0 <= k < |pass.qmos| :: !pass.qmos[k].Ff?)
            && (forall k | 0 <= k < |pass.umos| :: !pass.umos[k].Ff?)
  {
    var pass := Loop(Order, present, None, p, g);
    var xs := Present(Order, present);
    LoopOutcome(p, present, g);
    forall k | 0 <= k < |pass.qmos| ensures !pass.qmos[k].Ff? {
      assert pass.qmos[k] == MosOf(Q, xs)[k] == Part(Q, Mos, xs[k]);
    }
    forall k | 0 <= k < |pass.umos| ensures !pass.umos[k].Ff? {
      assert pass.umos[k] == MosOf(U, xs)[k] == Part(U, Mos, xs[k]);
    }
  }

  lemma FinishedStepsFacts(p: Params, present: set<Subarray>, polanalOk: bool, g: Guard)
    requires !PixscaleHit(p, present, g)
    ensures var pass := Loop(Order, present, None, p, g);
            Facts(Head() + pass.steps + Tail(p, RefOrNone(pass.ref), pass.qmos, pass.umos, polanalOk, g),
                  p, polanalOk, g)
  {
    var pass := Loop(Order, present, None, p, g);
    var r := RefOrNone(pass.ref);
    HeadLoopFacts(p, present, polanalOk, g);
    TailInput(p, present, g);
    TailFacts(p, r, pass.qmos, pass.umos, polanalOk, g);
    FactsJoin(Head() + pass.steps, Tail(p, r, pass.qmos, pass.umos, polanalOk, g), p, polanalOk, g);
  }

  lemma StoppedStepsFacts(p: Params, present: set<Subarray>, polanalOk: bool, g: Guard)
    requires !PixscaleHit(p, present, g)
    ensures var pass := Loop(Order, present, None, p, g);
            Facts(Head() + pass.steps + (Assemble(p, RefOrNone(pass.ref), pass.qmos, pass.umos)
                                         + [PolanalTest]), p, polanalOk, g)
  {
    var pass := Loop(Order, present, None, p, g);
    var r := RefOrNone(pass.ref);
    HeadLoopFacts(p, present, polanalOk, g);
    TailInput(p, present, g);
    TailFacts(p, r, pass.qmos, pass.umos, polanalOk, g);
    FactsJoin(Head() + pass.steps, Assemble(p, r, pass.qmos, pass.umos) + [PolanalTest],
              p, polanalOk, g);
  }

  lemma ThroughFacts(p: Params, present: set<Subarray>, polanalOk: bool, g: Guard)
    requires !PixscaleHit(p, present, g)
    ensures Facts(Pol2Cat(p, present, polanalOk, g).steps, p, polanalOk, g)
  {
    PlanSteps(p, present, polanalOk, g);
    if polanalOk || g.Corrected? {
      FinishedStepsFacts(p, present, polanalOk, g);
    } else {
      StoppedStepsFacts(p, present, polanalOk, g);
    }
  }

  /** The facts of head, loop and tail put together. */
  lemma RunFacts(p: Params, present: set<Subarray>, polanalOk: bool, g: Guard)
    ensures Facts(Pol2Cat(p, present, polanalOk, g).steps, p, polanalOk, g)
  {
    if PixscaleHit(p, present, g) {
      HeadLoopFacts(p, present, polanalOk, g);
      CrashSteps(p, present, polanalOk, g);
    } else {
      ThroughFacts(p, present, polanalOk, g);
    }
  }

  /** The despiked CALCQU output (`qff`, `uff`) is made but never used:
      no command of the script reads it. */
  lemma DespikedUnused(p: Params, present: set<Subarray>, polanalOk: bool, g: Guard)
    ensures SkipsDespiked(Pol2Cat(p, present, polanalOk, g).steps)
  {
    RunFacts(p, present, polanalOk, g);
  }

  /** Every normalisation fit plots on the DEBUG-level device, and the
      vector plot (with its background) on the plotting device. */
  lemma DevicesUsed(p: Params, present: set<Subarray>, polanalOk: bool, g: Guard)
    ensures DevicesRight(Pol2Cat(p, present, polanalOk, g).steps, p)
  {
    RunFacts(p, present, polanalOk, g);
  }

  /** The total Q and U maps are mosaics of the subarray mosaics of the
      subarrays with data, in the fixed order, onto the one reference
      (the word "None" when no subarray had data). */
  lemma PlanTotals(p: Params, present: set<Subarray>, polanalOk: bool, g: Guard)
    requires !PixscaleHit(p, present, g)
    ensures var xs := Present(Order, present);
            var steps := Pol2Cat(p, present, polanalOk, g).steps;
            && Call(WcsMosaic, MosOf(Q, xs) + [TotalRef(xs, p)], [Total(Q)], []) in steps
            && Call(WcsMosaic, MosOf(U, xs) + [TotalRef(xs, p)], [Total(U)], []) in steps
  {
    LoopOutcome(p, present, g);
    PlanSteps(p, present, polanalOk, g);
  }

  /** The total intensity map: made from Q and U exactly when no IREF is
      given, resampled onto the reference when IREF and a pixel size
      are given, and the one trimmed to the overlap. */
  lemma PlanIntensity(p: Params, present: set<Subarray>, polanalOk: bool, g: Guard)
    requires !PixscaleHit(p, present, g)
    ensures var xs := Present(Order, present);
            var steps := Pol2Cat(p, present, polanalOk, g).steps;
            && (!p.iref ==> Call(Maths, [Total(Q), Total(U)], [SynthI], []) in steps)
            && (p.iref ==> NoOut(steps, SynthI))
            && (p.iref && PixsizeGiven(p)
                ==> Call(WcsAlign, [IRef, TotalRef(xs, p)], [AlignedI], []) in steps)
            && Call(Maths, [Total(Q), Total(U), IMap(p)], [Overlap], []) in steps
  {
    LoopOutcome(p, present, g);
    PlanSteps(p, present, polanalOk, g);
    RunFacts(p, present, polanalOk, g);
  }

  /** With PLOT given and the script finishing, the catalogue is
      selected with the signal-to-noise (and length) expression and the
      vectors are plotted, over the cube's intensity plane when the
      background test passes; without PLOT nothing is plotted. */
  lemma PlanPlot(p: Params, present: set<Subarray>, polanalOk: bool, g: Guard)
    requires Pol2Cat(p, present, polanalOk, g).ending.Finished?
    ensures var steps := Pol2Cat(p, present, polanalOk, g).steps;
            && (p.plot.Some? ==> Call(CatSelect, [OutCat], [SelCat],
                                      [Expr(Selection(p.snr, p.plot.value, p.maxlen))]) in steps
                                 && Call(PolPlot, [SelCat], [], [Dev(Device(p))]) in steps)
            && (p.plot.Some? && Background(p, g)
                ==> Call(Display, [Cube], [], [Dev(Device(p))]) in steps)
            && (!(p.plot.Some? && Background(p, g)) ==> NoTool(steps, Display))
            && (p.plot.None? ==> NoTool(steps, PolPlot))
  {
    PlanEnding(p, present, polanalOk, g);
    PlanSteps(p, present, polanalOk, g);
    RunFacts(p, present, polanalOk, g);
  }

  /** The loop's steps include those building the reference from the
      first subarray with data. */
  lemma {:induction false} LoopBuildsFirst(subs: seq<Subarray>, present: set<Subarray>,
                                           p: Params, g: Guard, st: Step)
    requires !Loop(subs, present, None, p, g).crashed && |Present(subs, present)| > 0
    requires st in RefSteps(Present(subs, present)[0], p, g).steps
    ensures st in Loop(subs, present, None, p, g).steps
    decreases |subs|
  {
    var a := subs[0];
    if a !in present {
      assert Present(subs, present) == Present(subs[1..], present);
      LoopBuildsFirst(subs[1..], present, p, g, st);
    } else {
      assert Present(subs, present)[0] == a;
      var b := RefSteps(a, p, g);
      assert st in Block(a, p, b);
    }
  }

  // ---------------------------------------------------------------------
  // The script's slips
  // ---------------------------------------------------------------------

  /** As written, a pixel size stops the script with a NameError as soon
      as the reference is built, and nothing is cleaned up. */
  lemma AsWrittenPixscaleFails(p: Params, present: set<Subarray>, polanalOk: bool)
    requires PixsizeGiven(p) && |Present(Order, present)| > 0
    ensures Pol2Cat(p, present, polanalOk, AsWritten).ending == Crashed("pixscale")
    ensures !CleansUp(Pol2Cat(p, present, polanalOk, AsWritten).ending)
  {
    PlanEnding(p, present, polanalOk, AsWritten);
  }

  /** Corrected, the reference is squashed to the pixel size asked for
      and every total map is built on it. */
  lemma CorrectedScalesReference(p: Params, present: set<Subarray>, polanalOk: bool)
    requires PixsizeGiven(p) && |Present(Order, present)| > 0
    ensures var xs := Present(Order, present);
            var run := Pol2Cat(p, present, polanalOk, Corrected);
            && run.ending == Finished(!p.retain)
            && TotalRef(xs, p) == ScaledRef
            && Call(SqOrSt, [if p.iref then AlignedRef else RefImage(xs[0])], [ScaledRef],
                    [PixelScale(p.pixsize.value)]) in run.steps
  {
    var xs := Present(Order, present);
    PlanEnding(p, present, polanalOk, Corrected);
    LoopOutcome(p, present, Corrected);
    PlanSteps(p, present, polanalOk, Corrected);
    var b := RefSteps(xs[0], p, Corrected);
    var st := b.steps[|b.steps| - 1];
    LoopBuildsFirst(Order, present, p, Corrected, st);
  }

  /** As written, a cube without a POLANAL frame stops the script with a
      NameError right after the failed frame selection. */
  lemma AsWrittenPolanalFails(p: Params, present: set<Subarray>)
    requires !PixscaleHit(p, present, AsWritten)
    ensures var run := Pol2Cat(p, present, false, AsWritten);
            && run.ending == Crashed("AtaskError") && !CleansUp(run.ending)
            && |run.steps| > 0 && run.steps[|run.steps| - 1] == PolanalTest
  {
    PlanEnding(p, present, false, AsWritten);
    PlanSteps(p, present, false, AsWritten);
  }

  /** Corrected, the script selects the "POLANAL-" frame, renames it,
      and finishes; with a POLANAL frame it renames nothing. */
  lemma CorrectedPolanalFallback(p: Params, present: set<Subarray>, polanalOk: bool)
    ensures var run := Pol2Cat(p, present, polanalOk, Corrected);
            && run.ending == Finished(!p.retain)
            && (!polanalOk ==> Fallback()[0] in run.steps && Fallback()[1] in run.steps)
            && (polanalOk ==> NoTool(run.steps, WcsAttrib))
  {
    PlanEnding(p, present, polanalOk, Corrected);
    PlanSteps(p, present, polanalOk, Corrected);
    RunFacts(p, present, polanalOk, Corrected);
  }

  /** As written, a plot always goes over a displayed background image,
      whether or not IREF was given. */
  lemma AsWrittenAlwaysDisplays(p: Params, present: set<Subarray>)
    requires p.plot.Some? && !PixscaleHit(p, present, AsWritten)
    ensures Call(Display, [Cube], [], [Dev(Device(p))]) in Pol2Cat(p, present, true, AsWritten).steps
  {
    PlanEnding(p, present, true, AsWritten);
    PlanPlot(p, present, true, AsWritten);
  }

  /** Corrected, the background is displayed exactly when IREF was
      given. */
  lemma CorrectedDisplayFollowsIRef(p: Params, present: set<Subarray>, polanalOk: bool)
    requires p.plot.Some?
    ensures Call(Display, [Cube], [], [Dev(Device(p))]) in Pol2Cat(p, present, polanalOk, Corrected).steps
            <==> p.iref
  {
    PlanEnding(p, present, polanalOk, Corrected);
    PlanPlot(p, present, polanalOk, Corrected);
  }
}
