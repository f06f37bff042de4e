# Starlink core routines in Dafny

This project models nine routines of the Starlink astronomy software
collection and proves properties of them. Each routine gets one Dafny module.

- `Concat` (`smf_concat_smfGroup.c`): SMURF's concatenation of the time
  chunks of each subarray in a group. It has three parts:
  - a first pass that checks every chunk against the first one;
  - the count of related subarrays;
  - the copying of every chunk's data, LUT and state arrays into one
    time-ordered or bolometer-ordered array.
- `TwoBeam` (`smf_twobeam.c`): the two-beam fit. The model covers:
  - how the fit parameters are packed into, and read back from, the
    minimiser's vector;
  - how rows of work are split among worker threads;
  - the size of the beam lookup table;
  - operation 3, which bins a fine model grid back to the data grid and
    accumulates the residual statistics per thread.
- `ThreadTest` (`smurf_sc2threadtest.c`): the thread-pool exerciser. The model
  covers how the chunks are divided into jobs, the data length, and the three
  index-walking tests.
- `AdiPkg` (`adipkg.c`): ASTERIX's ADI package loader. The model covers:
  - the command-list parser with its `|`-separated list of terminating
    keywords;
  - the keyword dispatch;
  - the search of the `ADI_LOAD_PATH` directories for a package file.
- `CcdPuts` (`ccdputs.c`): CCDPACK's message forwarder, covering its flag
  parsing and the record it writes to the pipe.
- `Luted` (`kps1_luted.c`): KAPPA's LutEdit launcher. The model covers:
  - `cstring`;
  - the shell command with its redirection;
  - the reading back of the script's output.
- `ErrPrint` (`err1Print.c`): MERS error-message delivery. The model covers
  the optional bell, the line splitting and continuation lines, and the
  Fortran wrapper.
- `ErrnoInc` (`make-errno-err.c`): the generator of FIO's `ERRNO_ERR`
  include file. It writes a 124-entry errno table, one `add_line` paragraph
  per entry.
- `Pol2Cat` (`pol2cat.py`): SMURF's POL2 vector catalogue script. It is
  modelled as the sequence of tool invocations it makes and how the run ends.

`Common` holds the shared pieces:
- `Option`;
- C-string helpers (`strchr`, and `strncmp` used as a prefix test);
- decimal text;
- multiplication of naturals;
- `Span` tilings, the way the thread-splitting loops divide work.

Numbers are unbounded (`nat`, `int`) and reals are exact. This matters nowhere
in these routines except where noted under "Left out".

## Model

| member | source | states |
|---|---|---|
| Concat.CountRelated | applications/smurf/libsmf/smf_concat_smfGroup.c:165-172 | The count is one past the highest related index that any subgroup uses. It is zero exactly when no index is used, and no index at or beyond it is used. |
| Concat.ChunkProblems | applications/smurf/libsmf/smf_concat_smfGroup.c:201-281 | A chunk raises no problem exactly when it is 3-D and time-ordered, and (after the first chunk) it agrees with the first chunk in bolometer dimensions, data type and the components present. |
| Concat.CheckFromSpec | applications/smurf/libsmf/smf_concat_smfGroup.c:237-288 | From any chunk on, the check accepts exactly when every remaining chunk is acceptable. The accumulated time length is then the sum of all chunk lengths. A refusal names the first bad chunk together with that chunk's problems. |
| Concat.ValidateSpec | applications/smurf/libsmf/smf_concat_smfGroup.c:201-288 | The first pass accepts a subarray exactly when every chunk is acceptable. In that case `tlen` is the total number of time slices. A refusal names the first failing chunk, and every chunk before it passed. |
| Concat.TimeOrderedFlat | applications/smurf/libsmf/smf_concat_smfGroup.c:447-452 | For time-ordered data, copying each chunk whole at offset `tchunk*nbolo` and advancing `tchunk` by the chunk's length yields exactly the concatenation of the chunks. |
| Concat.CopyContiguousIsCopyAt | applications/smurf/libsmf/smf_concat_smfGroup.c:447-452 | The time-ordered copy loop is the same as placing the chunks one after another from offset `tchunk*nbolo`. |
| Concat.CopyRowsSpec | applications/smurf/libsmf/smf_concat_smfGroup.c:454-462 | In the bolometer-ordered copy, each bolometer row of the output receives that bolometer's row of the chunk at position `tchunk`. Every other element of that row is unchanged. |
| Concat.CopyRowsBefore | applications/smurf/libsmf/smf_concat_smfGroup.c:454-462 | Rows the copy loop has not reached yet keep their earlier contents. |
| Concat.CopyByBolometerRow | applications/smurf/libsmf/smf_concat_smfGroup.c:454-470 | After all chunks are copied bolometer by bolometer, bolometer b's row holds each chunk's row b, one after another, from `tchunk` on. |
| Concat.BoloOrderedRows | applications/smurf/libsmf/smf_concat_smfGroup.c:454-470 | For bolometer-ordered data, each output row is the concatenation over chunks of that bolometer's samples. |
| Concat.LayoutSpec | applications/smurf/libsmf/smf_concat_smfGroup.c:352-470 | The concatenated array is the concatenation of the chunks in time order, and per-bolometer concatenation in bolometer order. Its contents do not depend on the initial fill. |
| Concat.HaveLutUninitialised | applications/smurf/libsmf/smf_concat_smfGroup.c:303-306 | With `havelut` never initialised, a run that suppresses LUT creation can still claim a LUT. Wherever the corrected flag asks for a LUT, the as-written one agrees. |
| Concat.AcceptedStacked | applications/smurf/libsmf/smf_concat_smfGroup.c:285-288 | Once the first pass accepts, every present component, the LUT and the state array of each chunk have the sizes that its time length and the bolometer count imply. |
| Concat.ConcatSubarray | applications/smurf/libsmf/smf_concat_smfGroup.c:201-288 | A subarray is refused exactly when its first pass refuses, with the same chunk and problems. |
| Concat.ConcatSubarraySpec | applications/smurf/libsmf/smf_concat_smfGroup.c:324-470 | An accepted subarray yields an array with the dimensions of the chosen ordering. Each present component, the LUT (when kept) and the state array are laid out from the chunks, and absent components stay absent. |
| Concat.Collect | applications/smurf/libsmf/smf_concat_smfGroup.c:482 | Results are added in subarray order until the first refusal, which stops the collection and is reported. |
| Concat.ConcatGroup | applications/smurf/libsmf/smf_concat_smfGroup.c:165-482 | The group holds one concatenated subarray for each related index up to the count, each describing its chunks. Otherwise the first refused subarray is reported with its chunk and problems. Every concatenated subarray carries a LUT exactly when LUT creation is not suppressed and an output frameset exists. |
| TwoBeam.ParamCountDetermines | applications/smurf/libsmf/smf_twobeam.c:335-336 | The number of free parameters (4 to 7) identifies which of `fitback` and `fittwo` are set. |
| TwoBeam.PackRecover | applications/smurf/libsmf/smf_twobeam.c:346-425 | Reading back a freshly packed vector gives the starting parameters. The exceptions are that `a1` is pinned at 1, and the secondary beam is zeroed when it is not fitted. |
| TwoBeam.TrialOfPacked | applications/smurf/libsmf/smf_twobeam.c:631-648 | The cost function's reader sees the packed FWHMs as standard deviations. It puts the unfitted secondary beam at twice the primary width with zero amplitude, and a zero background when the background is not fitted. |
| TwoBeam.ReadersAgree | applications/smurf/libsmf/smf_twobeam.c:404-425 | The final unpack and the cost function's unpack agree on every fitted parameter, with widths converted by the factor `S2F`. |
| TwoBeam.PartitionTiles | applications/smurf/libsmf/smf_twobeam.c:746-787 | The row ranges given to the worker threads cover 0..n-1 without gaps or overlaps. The last thread takes the remainder. |
| TwoBeam.BeamPartitionSame | applications/smurf/libsmf/smf_twobeam.c:894-910 | The beam routine's split, which tests `nxb < nw`, hands out exactly the same ranges as the splits that test `<=`. |
| TwoBeam.NxbAsWrittenEven | applications/smurf/libsmf/smf_twobeam.c:663-668 | For every narrow beam (`2t+1 < 100`), the table size is clamped up to 100, which is even. The size is even exactly for narrow beams, which breaks the odd, centred-table invariant. |
| TwoBeam.Nxb | applications/smurf/libsmf/smf_twobeam.c:667-668 | The corrected table size is odd, at least 100, and at least `2*t+1`. |
| TwoBeam.NxbLeast | applications/smurf/libsmf/smf_twobeam.c:667-668 | The corrected size is the least odd size meeting both bounds. It differs from the as-written size only when the clamp applies. |
| TwoBeam.LutRanges | applications/smurf/libsmf/smf_twobeam.c:697-714 | The LUT entries handed to the worker threads tile the whole table of the as-written size `nxb`. |
| TwoBeam.BeamLines | applications/smurf/libsmf/smf_twobeam.c:894-910 | `smf1_beam` receives the same as-written `nxb`. Its line ranges, split with `nxb < nw`, tile the beam grid and equal the LUT ranges worker by worker. |
| TwoBeam.FineIndexBound | applications/smurf/libsmf/smf_twobeam.c:738-741 | Every fine-grid index that operation 3 reads lies within the `nx*ncomp` by `ny*ncomp` grid. |
| TwoBeam.AccumulateRow | applications/smurf/libsmf/smf_twobeam.c:1227-1243 | Operation 3's inner loops take, for each pixel of a data row, the fine-grid sample at the centre of its `ncomp` by `ncomp` block. They leave the fine-row pointer at the next data row. |
| TwoBeam.ResidualRow | applications/smurf/libsmf/smf_twobeam.c:1247-1258 | Each model value is the sample plus the background. Only good data pixels feed the running sums, and the row's statistics are those of its pixels visited in order. |
| TwoBeam.RowStatsSummarise | applications/smurf/libsmf/smf_twobeam.c:1247-1258 | After a row, the running sums describe every good pixel of the rows processed so far. |
| TwoBeam.MaxColsIsMax | applications/smurf/libsmf/smf_twobeam.c:1254 | The running maximum is at least every good pixel's model value. It is either `VAL__MIND` or attained at some good pixel. |
| TwoBeam.MaxRowsIsMax | applications/smurf/libsmf/smf_twobeam.c:1254 | The same holds over a range of rows. |
| TwoBeam.BinRows | applications/smurf/libsmf/smf_twobeam.c:1213-1267 | One thread's rows hold the model values, and its sums, count and maximum summarise exactly its good pixels. |
| TwoBeam.GoodRowsSplit | applications/smurf/libsmf/smf_twobeam.c:800-810 | Sums, counts and maxima over adjacent row ranges combine by addition and by maximum. |
| TwoBeam.CombineSummarises | applications/smurf/libsmf/smf_twobeam.c:800-810 | Adding the per-thread sums and taking the maximum of the per-thread maxima gives the statistics of the whole array. |
| TwoBeam.BinAll | applications/smurf/libsmf/smf_twobeam.c:776-810 | Running operation 3 over the thread split and combining the results gives the full model array and the whole-array statistics. |
| ThreadTest.JobLen | applications/smurf/libsmurf/smurf_sc2threadtest.c:319-320 | The job length is at least one, and is one when there are fewer chunks than threads. Otherwise `nthread` jobs of that length fit in the chunk count and `nthread` jobs of one more chunk do not. |
| ThreadTest.JobLenIsQuotient | applications/smurf/libsmurf/smurf_sc2threadtest.c:319-320 | With at least as many chunks as threads, that bracketing determines the job length: any count with the same property equals it, so it is `nchunks/nthread`. |
| ThreadTest.Assign | applications/smurf/libsmurf/smurf_sc2threadtest.c:336-350 | A job is either marked empty (both ends at `nchunks`) or is a non-empty range inside the chunks. |
| ThreadTest.WorkerChunks | applications/smurf/libsmurf/smurf_sc2threadtest.c:168-169 | A worker visits exactly the chunks of its range below `nchunks`, in increasing order. |
| ThreadTest.SubmittedPrefix | applications/smurf/libsmurf/smurf_sc2threadtest.c:352-363 | Exactly the first `Busy` jobs are submitted. |
| ThreadTest.ScheduleTiles | applications/smurf/libsmurf/smurf_sc2threadtest.c:336-350 | The submitted jobs' ranges cover the chunks 0..nchunks-1 in order without gaps or overlaps. |
| ThreadTest.EachChunkOnce | applications/smurf/libsmurf/smurf_sc2threadtest.c:336-363 | Every chunk is visited by exactly one job, and a job that is not submitted visits nothing. |
| ThreadTest.DataLen | applications/smurf/libsmurf/smurf_sc2threadtest.c:295 | The data length is the product of the dimensions. |
| ThreadTest.BlockSize | applications/smurf/libsmurf/smurf_sc2threadtest.c:289-295 | Each chunk holds 40 by 32 bolometers times its time steps. |
| ThreadTest.Test1 | applications/smurf/libsmurf/smurf_sc2threadtest.c:448-451 | Test 1 touches `i*bstride + j*tstride` for every bolometer i and slice j, in loop order. |
| ThreadTest.Test2 | applications/smurf/libsmurf/smurf_sc2threadtest.c:459-463 | Test 2's pointer walk touches the same indices as test 1 when both strides are positive, and nothing when a stride is zero. |
| ThreadTest.Test3AsWrittenOverruns | applications/smurf/libsmurf/smurf_sc2threadtest.c:470-477 | With `offset + j` the walk reaches an index past the end of the data array. |
| ThreadTest.Test3AsWrittenDiffers | applications/smurf/libsmurf/smurf_sc2threadtest.c:470-477 | The as-written walk differs from test 1's index set whenever there are at least two time slices. |
| ThreadTest.Test3 | applications/smurf/libsmurf/smurf_sc2threadtest.c:470-477 | The corrected walk, which indexes at `offset` alone, touches the same indices as test 1. |
| AdiPkg.EntryLen | applications/obsolete/asterix/lib/adipkg.c:72-75 | The length of an entry reaches exactly the next `\|` or the end of the list. |
| AdiPkg.ScanFindsFirstPrefix | applications/obsolete/asterix/lib/adipkg.c:66-82 | Scanning the terminator list selects the first entry that is a prefix of the token, numbered from 1. No match is reported when none is. |
| AdiPkg.FirstPrefix | applications/obsolete/asterix/lib/adipkg.c:66-82 | The reference selection is the first entry that is a prefix of the token. |
| AdiPkg.CmdList | applications/obsolete/asterix/lib/adipkg.c:44-87 | The list parser consumes at least one statement when one is there, and it reports a match only with good status. |
| AdiPkg.CmdListKeepsValid | applications/obsolete/asterix/lib/adipkg.c:44-87 | The statements kept are exactly the valid ones among those consumed. |
| AdiPkg.CmdListStops | applications/obsolete/asterix/lib/adipkg.c:44-87 | Parsing stops at the first matching terminator or error, or at the end of input, and never earlier. |
| AdiPkg.IfTerminator | applications/obsolete/asterix/lib/adipkg.c:271-305 | Inside an `if`, the block is ended by any symbol that starts with `else` (choice 1) or, failing that, with `endif` (choice 2), because entries are matched with `strncmp` over the entry's length. A token such as `elsewhere` or `endifx` therefore ends it too, and a symbol starting with neither does not. |
| AdiPkg.Dispatch | applications/obsolete/asterix/lib/adipkg.c:381-401 | A symbol token naming a keyword goes to that keyword's parser, and anything else to the expression parser. |
| AdiPkg.DispatchKeyword | applications/obsolete/asterix/lib/adipkg.c:381-401 | Every keyword parser is reached by its own keyword. |
| AdiPkg.KeywordTable | applications/obsolete/asterix/lib/adipkg.c:381-401 | A string is a statement keyword exactly when some statement parser is selected by it, and no two parsers share a keyword. |
| AdiPkg.CmdTrailing | applications/obsolete/asterix/lib/adipkg.c:404-415 | The status stays good exactly when the parser succeeded and its statement, if any, is followed by an end of line or `;`. The trailing-garbage report is made exactly when a statement was parsed with good status and something else follows. A null statement or bad status passes through with no report. |
| AdiPkg.FetchOnce | applications/obsolete/asterix/lib/adipkg.c:468-476 | The load path is read from the environment once, and later calls reuse it. |
| AdiPkg.PkgRequire | applications/obsolete/asterix/lib/adipkg.c:458-521 | With bad status nothing is tried. Otherwise a package loads from the last file tried, which opens. A failure means the last candidate did not open. |
| AdiPkg.TriesStopAtFirst | applications/obsolete/asterix/lib/adipkg.c:482-505 | No candidate before the last one tried opens. |
| AdiPkg.JoinSplit | applications/obsolete/asterix/lib/adipkg.c:482-505 | Splitting the load path at `:` and joining it back gives the path. |
| AdiPkg.CorrectedTriesEverySegment | applications/obsolete/asterix/lib/adipkg.c:482-505 | With the guard `ulen <= ADI_G_ldpath_len`, the search tries `dir/name.adi` for every directory in order, with leading blanks dropped, up to the first that opens. |
| AdiPkg.AsWrittenSkipsDirectory | applications/obsolete/asterix/lib/adipkg.c:505 | With the guard `ulen < flen`, the path `a:b:c` never tries the last directory `c`. |
| AdiPkg.CorrectedTriesThree | applications/obsolete/asterix/lib/adipkg.c:505 | The corrected guard tries all three directories of `a:b:c`. |
| AdiPkg.AsWrittenEmptyPath | applications/obsolete/asterix/lib/adipkg.c:505 | With an empty load path, the as-written guard tries `/x.adi` a second time, indexing past the end of the path. |
| CcdPuts.ScanFlags | applications/ccdpack/main/ccdputs.c:93-108 | Flag scanning stops at the first word that is not a flag. The scan reads past the argument list only under the as-written loop. |
| CcdPuts.Record | applications/ccdpack/main/ccdputs.c:121-129 | The record is the type bytes, the name, a newline, the message and a NUL. |
| CcdPuts.RecordRoundTrip | applications/ccdpack/main/ccdputs.c:121-129 | The record decodes back to its type bytes, name and message. |
| CcdPuts.LastOptionWins | applications/ccdpack/main/ccdputs.c:93-106 | A later `-log`/`-error` or `-name` overrides an earlier one. |
| CcdPuts.ScanRendered | applications/ccdpack/main/ccdputs.c:93-108 | Scanning a rendered list of options gives the type and name of the last ones, with `nflag` counting the words consumed. |
| CcdPuts.UnknownFlagIsUsage | applications/ccdpack/main/ccdputs.c:87-106 | Any other word starting with `-` ends the program with the usage message. |
| CcdPuts.CorrectedDelivers | applications/ccdpack/main/ccdputs.c:111-139 | With the count test `objc - nflag != 2`, options followed by one message write the record, or print the message when no pipe is open. |
| CcdPuts.AsWrittenRejectsFlags | applications/ccdpack/main/ccdputs.c:111-114 | With `objc + nflag != 2`, any flag makes a correct call fail as having the wrong arguments. |
| CcdPuts.AsWrittenReadsPastEnd | applications/ccdpack/main/ccdputs.c:93-108 | A command line made only of flags makes the as-written loop read past the argument list. The corrected loop reports wrong arguments. |
| Luted.KeptLength | applications/kappa/kapsub/kps1_luted.c:229-231 | The kept length is at least 1. Every character after it is a blank, and the last kept one is not, unless it is the first. |
| Luted.KeptIsRightTrim | applications/kappa/kapsub/kps1_luted.c:229-231 | The backwards scan keeps exactly the string with its trailing blanks removed, but always at least one character. |
| Luted.AllBlankKeepsOne | applications/kappa/kapsub/kps1_luted.c:229-231 | An all-blank string becomes a single blank. |
| Luted.CString | applications/kappa/kapsub/kps1_luted.c:226-247 | With bad status nothing happens. Otherwise the result is the trimmed string plus NUL, or an allocation report giving the byte count. |
| Luted.ScriptFits | applications/kappa/kapsub/kps1_luted.c:114-130 | The computed buffer holds `cmd 1>file 2>&1` and its NUL exactly, so `strlcat` truncates nothing. |
| Luted.PiecesCover | applications/kappa/kapsub/kps1_luted.c:145-151 | The successive `fgets` reads cover the output file exactly, in order. |
| Luted.ShownIffNonEmpty | applications/kappa/kapsub/kps1_luted.c:145-156 | For output without NUL bytes, some line is shown exactly when the script wrote anything. |
| Luted.Luted | applications/kappa/kapsub/kps1_luted.c:89-170 | With bad status nothing runs. The script runs only after every allocation and the temporary name succeeded, and lines are shown only when the output file opened. |
| Luted.LutedOutcome | applications/kappa/kapsub/kps1_luted.c:89-170 | The command run is the C text of the trimmed command, i.e. everything before an embedded NUL, with both streams redirected; a command without NUL runs whole. The call ends with bad status exactly when a step failed or the script wrote output. |
| Luted.EmbeddedNulCutsCommand | applications/kappa/kapsub/kps1_luted.c:113-130 | Because `strlen` and `one_strlcpy` stop at the first NUL of the copied command, `"ab" // CHAR(0) // "cd"` runs `ab 1>file 2>&1`. |
| ErrPrint.Err1Print | libraries/mers/err1Print.c:114-193 | The contract covers the following. <br>- When the bell is rung, the flag is cleared; otherwise `errbel` is unchanged. <br>- An empty message is shown as `!!`. <br>- In stream mode the message is one line, preceded by a bell line. <br>- A bad delivery status overrides the given status. |
| ErrPrint.ContinuationShape | libraries/mers/err1Print.c:172-181 | Every continuation line starts with `!     ` and is at most `errwsz` wide. |
| ErrPrint.WrapShape | libraries/mers/err1Print.c:153-181 | In wrap mode the first line starts with the bell when rung, every line fits the width, later lines are continuations, and there is at most one more line than characters. |
| ErrPrint.Err1PrintF | libraries/mers/err1Print.c:227-247 | The wrapper always hands back `.FALSE.`: the flag is cleared when the bell rings, and under the corrected test it is only rung when set. The text loses its trailing blanks on import, so an all-blank message is shown as `!!`. In stream mode, the line written is the text up to its last non-blank character. |
| ErrPrint.WrapperKeepsUnpaddedText | libraries/mers/err1Print.c:237-240 | A message with no trailing blank is imported unchanged, so the wrapper delivers what `err1Print` delivers for it. |
| ErrPrint.AsWrittenWrapperAlwaysRings | libraries/mers/err1Print.c:243-244 | Passing the flag's address makes `err1Print` ring the bell even when the flag is false. |
| ErrPrint.CorrectedBellFollowsFlag | libraries/mers/err1Print.c:143-150 | When the flag's value is tested, the bell rings exactly when the flag is set, and a NULL pointer never rings it. |
| ErrPrint.EmptyTextClearsBell | libraries/mers/err1Print.c:143-153 | An empty message clears a set flag although no bell character is written. |
| ErrnoInc.FallbacksCollideOnlyForAliases | libraries/fio/make-errno-err.c:145-1135 | Two entries share a fallback value only for the alias pairs `EAGAIN`/`EWOULDBLOCK` and `EDEADLK`/`EDEADLOCK`. |
| ErrnoInc.TableFallbacks | libraries/fio/make-errno-err.c:145-1135 | Each fallback value is its entry's position plus one, except the aliases. `EWOULDBLOCK` falls back to `EAGAIN`'s 11 and `EDEADLOCK` to `EDEADLK`'s 35. |
| ErrnoInc.AddLineRoundTrip | libraries/fio/make-errno-err.c:1146-1164 | Each `add_line` paragraph decodes back to the name, value, guess flag and message it was written from. |
| ErrnoInc.HostRoundTrip | libraries/fio/make-errno-err.c:1161-1163 | An entry with a host value is written as an `INTEGER` and `PARAMETER` pair that decodes back to it. |
| ErrnoInc.GuessRoundTrip | libraries/fio/make-errno-err.c:1158-1160 | An entry without a host value is marked as a guess and still decodes back to it. |
| ErrnoInc.EntriesAppend | libraries/fio/make-errno-err.c:145-1135 | The file text of two tables in a row is the text of the first followed by that of the second. |
| ErrnoInc.EntryText | libraries/fio/make-errno-err.c:145-1135 | Entry k's paragraph appears in the file at its place, written from the host value when there is one and from the fallback otherwise. |
| ErrnoInc.Generate | libraries/fio/make-errno-err.c:91-1142 | The program succeeds exactly when the output file opens. It then writes the header and every entry with nothing on stderr; otherwise it reports on stderr and fails. |
| Pol2Cat.NDevice | applications/smurf/scripts/pol2cat.py:303-314 | Graphics from the intermediate steps are suppressed (`!`) unless debugging with a device given. |
| Pol2Cat.Selection | applications/smurf/scripts/pol2cat.py:571-573 | The selection expression is `pi>SNR*dpi`, extended with `&P<MAXLEN` when a maximum length is given. |
| Pol2Cat.RefSteps | applications/smurf/scripts/pol2cat.py:435-460 | As written, making the reference crashes exactly when a pixel size is given. Otherwise it yields the subarray's reference image. |
| Pol2Cat.Loop | applications/smurf/scripts/pol2cat.py:360-474 | Once a reference exists, the later subarrays keep it and do not crash. |
| Pol2Cat.LoopCrash | applications/smurf/scripts/pol2cat.py:435-460 | The loop crashes exactly when a pixel size is given under the as-written code and some subarray is present. |
| Pol2Cat.LoopMosaics | applications/smurf/scripts/pol2cat.py:466-474 | The Q and U mosaic lists hold one mosaic per present subarray, in the fixed subarray order. |
| Pol2Cat.LoopRef | applications/smurf/scripts/pol2cat.py:435-460 | The reference comes from the first present subarray, or there is none when no subarray is present. |
| Pol2Cat.LoopBuildsFirst | applications/smurf/scripts/pol2cat.py:435-460 | The steps that build the reference for the first present subarray are part of the run. |
| Pol2Cat.Pol2Cat | applications/smurf/scripts/pol2cat.py:296-595 | A finished run cleans up its NDG files exactly when `retain` is false. A run that does not finish never cleans up. |
| Pol2Cat.PlanEnding | applications/smurf/scripts/pol2cat.py:456-545 | The run crashes with `pixscale` when the reference needs rescaling under the as-written code. It crashes with the atask error when POLANAL is missing under the as-written code. Otherwise it finishes. |
| Pol2Cat.PlanSteps | applications/smurf/scripts/pol2cat.py:341-586 | A run is the fixed head, the per-subarray pass, then assembly, catalogue and plotting. The as-written code with POLANAL missing stops after the POLANAL test. |
| Pol2Cat.LoopOutcome | applications/smurf/scripts/pol2cat.py:360-474 | Without the crash, the pass yields the reference that assembly uses and the mosaics of the present subarrays. |
| Pol2Cat.DespikedUnused | applications/smurf/scripts/pol2cat.py:352-425 | No step reads the despiked `qff`/`uff` images produced by `ffclean`. |
| Pol2Cat.DevicesUsed | applications/smurf/scripts/pol2cat.py:376-586 | Intermediate `normalize` steps use the suppressed device, and the final plots use the user's device. |
| Pol2Cat.PlanTotals | applications/smurf/scripts/pol2cat.py:482-495 | The total Q and U images are mosaics of the per-subarray mosaics aligned to the reference. |
| Pol2Cat.PlanIntensity | applications/smurf/scripts/pol2cat.py:501-525 | Without an IREF image, total intensity is synthesised from Q and U. With IREF, nothing is synthesised and IREF is aligned when a pixel size is given. The overlap mask uses the intensity map. |
| Pol2Cat.PlanPlot | applications/smurf/scripts/pol2cat.py:565-586 | When plotting, the catalogue is selected and plotted. The background image is displayed exactly when the background test holds, and nothing is displayed or plotted otherwise. |
| Pol2Cat.Failing | applications/smurf/scripts/pol2cat.py:599-601 | A StarUtilError at any step other than the POLANAL test is reported and ends the run there, without cleaning up. |
| Pol2Cat.AsWrittenPixscaleFails | applications/smurf/scripts/pol2cat.py:456-460 | With a pixel size given and some subarray present, the run dies on the undefined `pixscale` and does not clean up. |
| Pol2Cat.CorrectedScalesReference | applications/smurf/scripts/pol2cat.py:456-460 | Scaling by the given pixel size, the run finishes and the rescaled reference becomes the mosaic reference. |
| Pol2Cat.AsWrittenPolanalFails | applications/smurf/scripts/pol2cat.py:535-545 | Without POLANAL, the `except AtaskError` clause names an unimported class, so the run dies after the test. |
| Pol2Cat.CorrectedPolanalFallback | applications/smurf/scripts/pol2cat.py:535-545 | With the error caught, the run finishes and uses the `wcsattrib` fallback exactly when POLANAL is missing. |
| Pol2Cat.AsWrittenAlwaysDisplays | applications/smurf/scripts/pol2cat.py:579-582 | `iref` is either the user's IREF value or, when none was given, the `NDG(1)` object created at lines 501-502. Either way `if iref` is true, so the background is always displayed when plotting. |
| Pol2Cat.CorrectedDisplayFollowsIRef | applications/smurf/scripts/pol2cat.py:579-582 | Testing whether IREF was supplied, the background is displayed exactly when it was. |

## Left out

- I/O of every kind is a parameter of the model. This covers HDS/NDF files, `smf_open_file`, `fopen`/`fgets`, the CCDPACK pipe, the error stream, `getenv` and `mkstemp`. It also covers `system` and the starutil tool invocations. Each is reduced to the value or success flag it returns.
- The thread pools are modelled as the sequential composition of the jobs. The ranges are disjoint, so the order does not matter. Locking and `thrWait` are not modelled.
- `smf_dataOrder`, the LUT construction and the GSL minimiser are not part of this model. The chunks arrive already in the requested order. The model of `smf_twobeam.c` covers only the packing of the fit, the thread splits, the LUT size and operation 3.
- Floating point is modelled by exact reals. The FWHM/sigma conversions, `fac` and the residual sums are therefore exact. `VAL__BADD` and `VAL__MIND` are parameters.
- Operation 3 of `smf_twobeam.c` follows the code's overrides at lines 1204-1208: `fac = 1.0` and only the centre fine pixel of each block is used. The `1/(ncomp*ncomp)` value assigned just before them is overwritten, so it does not appear in the model.
- ThreadTest: the `parGdr0i` ranges are taken as given (`nchunks >= 1`, `nthread >= 1`). Timing and messages are left out.
- AdiPkg: the token stream and statement parsers are abstract steps. `ADIisTokenCstring` is modelled as exact comparison and `strncmp` as a prefix test on NUL-free strings. The package file is not executed.
- AdiPkg.PkgRequire: the candidate file name is built in the fixed 200-byte buffer `fname` at `adipkg.c` lines 460 and 491-498, with no bound check. The model's candidate names have any length, so it does not show what happens once a directory plus package name passes 199 characters.
- CcdPuts: Tcl object handling is reduced to strings. The type-to-bytes encoding is a parameter.
- CcdPuts.CorrectedDelivers: a call with the wrong number of arguments is reduced to the usage failure. The interpreter result text that `Tcl_WrongNumArgs` builds at `ccdputs.c` line 112 is not modelled.
- Luted: the Tcl script's own behaviour is a parameter (its output). `cstring` requires a length of at least 1, because with length 0 the C code reads `fstring[-1]`.
- ErrPrint: the line splitter `ems1Rform` is abstracted by its width and progress contract. The actual word-breaking is not modelled.
- ErrnoInc: the host errno values and `strerror` texts are parameters. The date string is a parameter.
- Pol2Cat: each starutil invocation is an abstract step with its tool, inputs, outputs and options. The images' contents are not modelled. `AtaskError` is taken to be a subclass of StarUtilError, as its name suggests, since starutil is not part of this model. Dictionary iteration order is taken as insertion order. Shell quoting is taken as given.
- Pol2Cat.Failing: states that a tool failure stops the run, and does not model which tool can fail or why. Its contract does not cover a failure of the POLANAL test step (`pol2cat.py` lines 535-545). That failure is caught by the inner `except AtaskError`, so it is never reported. As written it crashes with a NameError; corrected it runs the fallback. Both outcomes are modelled through `polanalOk == false`, in Pol2Cat.AsWrittenPolanalFails and Pol2Cat.CorrectedPolanalFallback, not through `Failing`.
- Pol2Cat.Loop: one set `present` stands for the subarrays with data. The script tests only the Q group (`qarray != None`, `pol2cat.py` lines 364-367) and then uses `ucont.filter(a)` as well. The model therefore assumes that a subarray with Q data also has U data, and does not model a subarray with Q but no U.

## Findings

| source | as written | input that shows it | evidently intended | confidence | as-written member | corrected member |
|---|---|---|---|---|---|---|
| applications/smurf/libsmf/smf_concat_smfGroup.c:303-306 | `havelut` is set to 1 only inside the test, and is never initialised otherwise | LUT creation suppressed | `havelut = 0` unless a LUT is being created | not executed | Concat.HaveLutUninitialised | Concat.ConcatGroup |
| applications/smurf/libsmf/smf_twobeam.c:667-668 | `if( nxb < 100 ) nxb = 100;` makes the table size even | a beam radius below 0.2 gives `nxb = 1`, clamped to 100 | clamp to the odd size 101 so the table stays centred | not executed | TwoBeam.NxbAsWrittenEven | TwoBeam.NxbLeast |
| applications/smurf/libsmurf/smurf_sc2threadtest.c:474 | `dat[offset + j]` while `offset` also advances by `tstride` | `nbolo = 1`, `ntslice = 2`, `bstride = 2`, `tstride = 1` reaches index 2 of a 2-element array | `dat[offset]` | not executed | ThreadTest.Test3AsWrittenOverruns | ThreadTest.Test3 |
| applications/obsolete/asterix/lib/adipkg.c:505 | loop guard `ulen < flen` | `ADI_LOAD_PATH=a:b:c`, package `x`: `c/x.adi` is never tried | compare `ulen` with the load path's length, `ulen <= ADI_G_ldpath_len`, so every segment is visited | not executed | AdiPkg.AsWrittenSkipsDirectory | AdiPkg.CorrectedTriesEverySegment |
| applications/ccdpack/main/ccdputs.c:111 | `objc + nflag != 2` | `ccdputs -log message` is rejected | `objc - nflag != 2` | not executed | CcdPuts.AsWrittenRejectsFlags | CcdPuts.CorrectedDelivers |
| applications/ccdpack/main/ccdputs.c:93 | the flag loop never checks `i < objc` | `ccdputs -log` reads `objv[2]` | stop at the end of the arguments | not executed | CcdPuts.AsWrittenReadsPastEnd | CcdPuts.ScanFlags |
| libraries/mers/err1Print.c:243 | the wrapper passes `errbel` by address, and `err1Print` tests only the pointer | `errbel = .FALSE.` still rings the bell | ring only when the flag is set | not executed | ErrPrint.AsWrittenWrapperAlwaysRings | ErrPrint.CorrectedBellFollowsFlag |
| applications/smurf/scripts/pol2cat.py:456-460 | uses `pixscale`, which is never defined | any run with `PIXSIZE` given | scale by `pixsize` | not executed | Pol2Cat.AsWrittenPixscaleFails | Pol2Cat.CorrectedScalesReference |
| applications/smurf/scripts/pol2cat.py:541 | `except AtaskError`, but `AtaskError` is not imported | a run where POLANAL is not defined in the input | import and catch the atask error, then use the fallback | not executed | Pol2Cat.AsWrittenPolanalFails | Pol2Cat.CorrectedPolanalFallback |
| applications/smurf/scripts/pol2cat.py:579-582 | `if iref:` tests an object that is always truthy: the user's IREF, or the `NDG(1)` made at lines 501-502 when none was given | `PLOT` given with no `IREF` | display the background only when IREF was supplied | not executed | Pol2Cat.AsWrittenAlwaysDisplays | Pol2Cat.CorrectedDisplayFollowsIRef |
