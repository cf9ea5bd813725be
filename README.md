# psinfo-l: status-file parser and pid loop

psinfo-l prints basic information about the processes whose ids it gets on
the command line. For each pid, `load_info` reads `/proc/<pid>/status` with
`fgets` in chunks of at most `MAX_BUFFER` (150) bytes. On each chunk it calls
`strtok(buffer, ":\t")` to get the first token. It then tests that token with
`strstr` against eight labels in a fixed order:

- `Name`, `State`, `VmSize`, `VmData`, `VmStk`, `VmExe`;
- `nonvoluntary_ctxt_switches`, then `voluntary_ctxt_switches`.

The first label that matches selects a field of the process's `proc_info`
record. That field receives the second token, `strtok(NULL, ":\t")`:

- copied verbatim with `strcpy` for the six text fields;
- converted with `atoi` for the two context-switch counts.

`main` rejects a call with no pid argument. Otherwise it allocates one
record per pid, sets each record's pid to `atoi(argv[i+1])` and has
`load_info` fill it.

The model has three modules:

- `CString` (cstring.dfy) holds the C library routines as pure functions over
  character sequences:
  - `CStr`: the text before the first NUL of a buffer;
  - `Strtok`: one call of strtok with delimiters `:` and tab, returning the
    token and where the next call resumes;
  - `Strstr`: the containment test;
  - `Atoi`.

  Each one comes with a lemma tying it to an independent description: a
  tokenisation predicate, contiguous occurrence, the decimal spelling of a
  number.
- `Status` (status.dfy) holds the record and the line semantics:
  - `Classify`: the chain of strstr tests;
  - `ReadLine`: what one chunk means;
  - `Apply` / `ApplyLine`: the branch that chunk takes;
  - `ParseLines`: the whole file, as a left fold of the chunks;
  - the properties of those functions, as lemmas.
- `PsInfo` (psinfo.dfy) holds the imperative part:
  - class `ProcInfo`, whose fields are those of `proc_info`;
  - `LoadInfo`: the `while (fgets …)` loop, with the strstr chain in
    `Select` and the assignments in `Set`;
  - `Run`: `main`, with `LoadAll` as its loop and `Allocate` as its malloc.

  Each method is proved against the `Status` functions.

The `/proc` file system is a parameter: a map from pid to the chunks `fgets`
delivers from that pid's status file. A pid with no entry is a file that
`fopen` cannot open. The contents of the memory `malloc` returns are also a
parameter (`uninit`).

One might expect the parsed name for `Name:\tbash\n` to be `bash`. The code
keeps the trailing newline, because newline is not a strtok delimiter, and the
model follows the code: the name is `bash\n` (`NameLineExample`).

## Model

| member | source | states |
|---|---|---|
| CString.CStr | psinfol.c:116-117 | the text strtok sees in the fgets buffer: its contract is CStrPrefix |
| CString.CStrPrefix | psinfol.c:116-117 | strtok sees the longest NUL-free prefix of the fgets buffer; a buffer with no NUL is seen whole |
| CString.Strtok | psinfol.c:117-119 | one strtok call with delimiters ":\t": its contract is StrtokTokenizes and StrtokUnique (and StrtokShrinks for lengths) |
| CString.StrtokTokenizes | psinfol.c:117 | strtok(…, ":\t") returns NULL exactly when only delimiters remain; otherwise it skips the leading delimiters, returns the maximal delimiter-free token, and resumes after the single delimiter that ends it |
| CString.StrtokUnique | psinfol.c:117-119 | any split of the text into delimiters, a token, one delimiter and the rest is exactly what strtok returns, so the second call picks up where the first stopped |
| CString.StrtokShrinks | psinfol.c:117-119 | the token and the remaining text are never longer than the text scanned |
| CString.Strstr | psinfol.c:118-142 | the non-NULL test on strstr: its contract is StrstrOccurs (both directions) |
| CString.StrstrOccurs | psinfol.c:118 | strstr finds the needle exactly when it occurs contiguously in the token |
| CString.StrstrMissingFirst | psinfol.c:118-136 | a label whose first letter the token lacks is not found |
| CString.StrstrTooLong | psinfol.c:139-142 | a label longer than the token is not found |
| CString.AccumulateSplit | psinfol.c:141 | atoi's digit loop over a run of digits followed by more text continues from the run's value |
| CString.AccumulateDecimal | psinfol.c:144 | the digit loop reads back the decimal spelling of n, up to the first non-digit |
| CString.Atoi | psinfol.c:61 | atoi, also at psinfol.c:141 and 144: its contract is AtoiDecimal and AtoiSkipsSpace |
| CString.AtoiDecimal | psinfol.c:61 | atoi of white space, an optional sign, the decimal spelling of n and a non-digit tail is n, or -n for a minus sign |
| CString.AtoiSkipsSpace | psinfol.c:61 | leading white space does not change what atoi returns |
| Status.Classify | psinfol.c:118-145 | the if/else chain of strstr tests: its contract is ClassifyChain and ClassifyFirstMatch |
| Status.ClassifyChain | psinfol.c:118-145 | the label chosen for a first token is that of the first strstr test that succeeds, in the order the branches are written, and none when every test fails |
| Status.ClassifyFirstMatch | psinfol.c:118-145 | the label chosen occurs in the token and no label tested before it does; no label is chosen exactly when none of the eight occurs |
| Status.Store | psinfol.c:123-144 | a branch sets its own field and keeps the pid and every other field |
| Status.ReadLine | psinfol.c:116-145 | a chunk whose behaviour is defined is either unlabelled, or labelled with a value of its label's kind (a count for the two context-switch labels, text for the rest) |
| Status.ApplyLine | psinfol.c:117-145 | one pass of the loop body: its contract is LineUpdatesOneField and NonvoluntaryLineKeepsVoluntary |
| Status.ParseLines | psinfol.c:116-150 | the whole fgets loop: its contract is ParseLinesStep, ParseKeepsPid, LastLineWins, AbsentLabelKeepsFieldOfLines and UnlabelledLinesKeepRecord |
| Status.ParseLinesStep | psinfol.c:116-150 | reading one more chunk applies that chunk to the record built from the chunks before it |
| Status.LineUpdatesOneField | psinfol.c:117-145 | a chunk changes at most one field: the field of its first token's label, which gets the second token verbatim or its atoi; a chunk without a label leaves the record unchanged |
| Status.ReadLineLabel | psinfol.c:117-118 | a labelled reading carries the label its first token is classified under |
| Status.NonvoluntaryLineKeepsVoluntary | psinfol.c:139-144 | a chunk whose first token contains "nonvoluntary_ctxt_switches" never changes the voluntary count |
| Status.NeverVoluntary | psinfol.c:139-144 | such a token is never classified as the voluntary count |
| Status.NonvoluntaryContainsVoluntary | psinfol.c:139-142 | a token containing "nonvoluntary_ctxt_switches" also contains "voluntary_ctxt_switches", which is why the longer label is tested first |
| Status.ApplyField | psinfol.c:118-145 | applying a reading changes the field of its label to the reading's value and keeps every other field |
| Status.ApplyAllKeepsPid | psinfol.c:115-150 | the loop never changes the pid |
| Status.ParseKeepsPid | psinfol.c:115-150 | parsing a status file never changes the pid |
| Status.LastReadingWins | psinfol.c:116-150 | a field holds the value of the last reading under its label |
| Status.LastLineWins | psinfol.c:116-150 | a field holds the value of the last chunk read under its label |
| Status.AbsentLabelKeepsField | psinfol.c:116-150 | a field no reading is labelled with keeps its old value |
| Status.AbsentLabelKeepsFieldOfLines | psinfol.c:116-150 | a field no chunk is read under keeps its old value, including whatever malloc left there |
| Status.UnlabelledLinesKeepRecord | psinfol.c:116-150 | a file whose chunks are all unlabelled leaves the record unchanged |
| Status.TextValueFits | psinfol.c:99-123 | the token strcpy copies, with its NUL, fits in the 150-byte field |
| Status.LabelledLine | psinfol.c:117-144 | a chunk made of a label token, delimiters and a value token sets the label's field to the value token verbatim (newline included) or to its atoi |
| Status.LabelledLineTokens | psinfol.c:117-119 | on such a chunk the two strtok calls return the label token and then the value token |
| Status.ClassifyWithoutCapitals | psinfol.c:118-145 | a token without N, S or V can only be a context-switch label, and the non-voluntary test comes first |
| Status.NameLineExample | psinfol.c:117-123 | "Name:\tbash\n" sets the name to "bash\n" and changes nothing else |
| Status.CountLine | psinfol.c:139-144 | a count label, ":\t", a digit and a newline set that count to the digit's value |
| Status.AtoiDigitLine | psinfol.c:141 | atoi of a digit followed by a newline is the digit's value |
| Status.VoluntaryClassified | psinfol.c:142 | the token "voluntary_ctxt_switches" takes the voluntary branch |
| Status.NonvoluntaryClassified | psinfol.c:139 | the token "nonvoluntary_ctxt_switches" takes the non-voluntary branch, not the voluntary one |
| Status.VoluntaryLineExample | psinfol.c:142-144 | "voluntary_ctxt_switches:\t5\n" is read as the voluntary count 5 |
| Status.NonvoluntaryLineExample | psinfol.c:139-141 | "nonvoluntary_ctxt_switches:\t2\n" is read as the non-voluntary count 2 |
| PsInfo.ProcInfo.constructor | psinfol.c:52 | a new record holds whatever the memory held |
| PsInfo.ProcInfo.LoadInfo | psinfol.c:107-150 | fails, changing nothing, exactly when the pid's status file cannot be opened; otherwise the record becomes the fold of the file's chunks over the old record, so the pid is kept and every property of ParseLines holds of it |
| PsInfo.ProcInfo.LoadLine | psinfol.c:117-145 | one pass of the loop body changes the record as ApplyLine says |
| PsInfo.ProcInfo.Set | psinfol.c:123-144 | the assignment of one branch changes exactly that field |
| PsInfo.Select | psinfol.c:118-145 | the if/else chain of strstr tests picks the label Classify gives |
| PsInfo.Pids | psinfol.c:60-62 | the pids main sets, atoi(argv[i+1]) for each argument: its contract is Run's |
| PsInfo.Run | psinfol.c:44-70 | usage error exactly when there is no pid argument; abort exactly when some pid's status file cannot be opened; otherwise one fresh, distinct record per argument, record i having pid atoi(argv[i+1]) and the contents of that pid's status file parsed over the uninitialised memory |
| PsInfo.LoadAll | psinfol.c:60-70 | sets each record's pid and loads it: succeeds exactly when every status file opens, and then each record is its file parsed over its old contents |
| PsInfo.Allocate | psinfol.c:52-53 | n distinct new records holding the given memory contents |

## Left out

- Threads: `main` starts one `load_info` thread per pid and joins them all (psinfol.c:56, 65, 72-74). The model loads the records one after another. If strtok kept its state per thread, the records would end the same either way, since each load writes only its own record. As written, all the threads share strtok's hidden static state, so with two loads running at once the second `strtok(NULL, …)` (psinfol.c:119-143) may return a token from another thread's buffer, and a record may end up holding another process's value. The model does not capture this race.
- File I/O: `sprintf` of the path, `fopen`, `fgets` and `fclose` are replaced by the `status` map from pid to chunks. Each chunk is taken to be shorter than `MAX_BUFFER`, as `fgets` delivers it; how `fgets` splits long lines is not modelled.
- The `assert` on `fopen` (psinfol.c:111) aborts the whole program. The model returns `false` from `LoadInfo`, and `Run` returns `Aborted`. Records loaded before the failing one are then not described by `Run`.
- `malloc` failure (psinfol.c:53) is not modelled: allocation always succeeds.
- Output is not modelled: `print_info` (psinfol.c:161-171), the "Error" message, the per-thread "Hilo #" line, the DEBUG prints and `free`.
- The code includes `semaphore.h`, but it has no bounded buffer and no semaphores between the loaders and the printer. None is modelled.
- Undefined behaviour becomes a precondition, `Defined` / `DefinedRun`:
  - a chunk whose first strtok returns NULL;
  - a labelled chunk whose second strtok returns NULL;
  - an atoi result outside the range of `int`, for counts and for pids.
- Status.TextValueFits and the chunk bound: one Dafny `char` stands for one byte of the status file. `MaxBuffer`, the bound on a chunk's length in `ReadLine` and the bound `TextValueFits` proves all count bytes, as `fgets` and the `char[150]` fields do (psinfol.c:21, 27-32, 116). The model does not tie a char to a byte value: a chunk of multi-byte characters (UTF-8 text of more than 149 bytes in fewer than 150 chars) is accepted although `fgets` would never deliver it.
- Status.Apply: an undefined reading leaves the record unchanged. This only makes the function total. The methods (`LoadInfo`, `LoadLine`, `Run`) and the lemmas that state what a load produces (`LineUpdatesOneField`, `LastLineWins`, `AbsentLabelKeepsFieldOfLines`, `TextValueFits`) require defined chunks. `ParseKeepsPid`, `ApplyAllKeepsPid` and `NonvoluntaryLineKeepsVoluntary` have no such requirement: they also hold of chunks on which the C code's behaviour is undefined (for example `Name:` as the last chunk, where strcpy gets NULL at psinfol.c:119-123), and there they describe the model's identity step, not the program.
- CString.Atoi: the model has no overflow; results outside `int` are excluded by the preconditions above.

