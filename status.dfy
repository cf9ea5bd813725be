/**
 * The meaning of one /proc/<pid>/status record as psinfo-l's loader reads
 * it: the eight labels it recognises and the order in which it tests them,
 * the record it fills, what a single line does to that record, and what a
 * whole sequence of lines does.
 */
module Status {
  import opened CString

  /** The C `int` of the record's pid and context-switch counts. */
  newtype int32 = x: int | InInt32(x)

  /** The range of a C `int`. */
  predicate InInt32(x: int) { -0x8000_0000 <= x < 0x8000_0000 }

  /** The size of every text buffer: the line buffer fgets fills and each text field of the record. */
  const MaxBuffer: nat := 150

  /** The labels the loader recognises. */
  datatype Label =
    | Name | State | VmSize | VmData | VmStk | VmExe
    | NonvoluntaryCtxtSwitches | VoluntaryCtxtSwitches

  /** The text the loader looks for in a line's first token. */
  function LabelText(l: Label): string
  {
    match l
    case Name => "Name"
    case State => "State"
    case VmSize => "VmSize"
    case VmData => "VmData"
    case VmStk => "VmStk"
    case VmExe => "VmExe"
    case NonvoluntaryCtxtSwitches => "nonvoluntary_ctxt_switches"
    case VoluntaryCtxtSwitches => "voluntary_ctxt_switches"
  }

  /** The position of a label in the if/else chain: the loader tests the labels in increasing rank. */
  function Rank(l: Label): nat
  {
    match l
    case Name => 0
    case State => 1
    case VmSize => 2
    case VmData => 3
    case VmStk => 4
    case VmExe => 5
    case NonvoluntaryCtxtSwitches => 6
    case VoluntaryCtxtSwitches => 7
  }

  /** The two labels whose value atoi converts; the other six are copied as text. */
  predicate IsCount(l: Label)
  {
    l == NonvoluntaryCtxtSwitches || l == VoluntaryCtxtSwitches
  }

  /** The label under which the loader files a line's first token: the
      first label, in rank order, whose text occurs in the token. */
  function LabelAt(k: nat): Label
  {
    if k == 0 then Name else if k == 1 then State else if k == 2 then VmSize else if k == 3 then VmData
    else if k == 4 then VmStk else if k == 5 then VmExe else if k == 6 then NonvoluntaryCtxtSwitches
    else VoluntaryCtxtSwitches
  }

  function ClassifyFrom(token: string, k: nat): Option<Label>
    decreases 8 - k
  {
    if k >= 8 then None
    else if Strstr(token, LabelText(LabelAt(k))) then Some(LabelAt(k))
    else ClassifyFrom(token, k + 1)
  }

  function Classify(token: string): Option<Label>
  {
    ClassifyFrom(token, 0)
  }

  /** Classify is the loader's if/else chain of strstr tests. */
  lemma ClassifyChain(token: string)
    ensures Classify(token) ==
      if Strstr(token, "Name") then Some(Name)
      else if Strstr(token, "State") then Some(State)
      else if Strstr(token, "VmSize") then Some(VmSize)
      else if Strstr(token, "VmData") then Some(VmData)
      else if Strstr(token, "VmStk") then Some(VmStk)
      else if Strstr(token, "VmExe") then Some(VmExe)
      else if Strstr(token, "nonvoluntary_ctxt_switches") then Some(NonvoluntaryCtxtSwitches)
      else if Strstr(token, "voluntary_ctxt_switches") then Some(VoluntaryCtxtSwitches)
      else None
  {
    assert ClassifyFrom(token, 7) == if Strstr(token, "voluntary_ctxt_switches") then Some(VoluntaryCtxtSwitches) else None;
    assert ClassifyFrom(token, 6) == if Strstr(token, "nonvoluntary_ctxt_switches") then Some(NonvoluntaryCtxtSwitches) else ClassifyFrom(token, 7);
    assert ClassifyFrom(token, 5) == if Strstr(token, "VmExe") then Some(VmExe) else ClassifyFrom(token, 6);
    assert ClassifyFrom(token, 4) == if Strstr(token, "VmStk") then Some(VmStk) else ClassifyFrom(token, 5);
    assert ClassifyFrom(token, 3) == if Strstr(token, "VmData") then Some(VmData) else ClassifyFrom(token, 4);
    assert ClassifyFrom(token, 2) == if Strstr(token, "VmSize") then Some(VmSize) else ClassifyFrom(token, 3);
    assert ClassifyFrom(token, 1) == if Strstr(token, "State") then Some(State) else ClassifyFrom(token, 2);
  }

  /** Rank and LabelAt are inverse. */
  lemma RankLabelAt(l: Label, k: nat)
    ensures LabelAt(Rank(l)) == l
    ensures k < 8 ==> Rank(LabelAt(k)) == k
  {
  }

  /** Testing from rank `k` on finds the first label of rank `k` or more
      whose text occurs in the token, and nothing when none does. */
  lemma {:induction false} ClassifyFromFirst(token: string, k: nat)
    decreases 8 - k
    ensures ClassifyFrom(token, k).Some? ==>
              Strstr(token, LabelText(ClassifyFrom(token, k).value)) && k <= Rank(ClassifyFrom(token, k).value)
    ensures ClassifyFrom(token, k).Some? ==>
              forall l :: k <= Rank(l) < Rank(ClassifyFrom(token, k).value) ==> !Strstr(token, LabelText(l))
    ensures ClassifyFrom(token, k).None? ==> forall l :: k <= Rank(l) ==> !Strstr(token, LabelText(l))
  {
    if k < 8 {
      ClassifyFromFirst(token, k + 1);
      forall l | Rank(l) == k
        ensures l == LabelAt(k)
      {
        RankLabelAt(l, k);
      }
      RankLabelAt(LabelAt(k), k);
    }
  }

  /** Classify picks the first label in rank order whose text occurs in the
      token, and nothing when none does. */
  lemma ClassifyFirstMatch(token: string)
    ensures Classify(token).Some? ==> Strstr(token, LabelText(Classify(token).value))
    ensures Classify(token).Some? ==>
              forall l :: Rank(l) < Rank(Classify(token).value) ==> !Strstr(token, LabelText(l))
    ensures Classify(token).None? <==> forall l :: !Strstr(token, LabelText(l))
  {
    ClassifyFromFirst(token, 0);
  }

  /** One process's record (proc_info). */
  datatype Record = Record(
    pid: int32,
    name: string,
    state: string,
    vmsize: string,
    vmdata: string,
    vmexe: string,
    vmstk: string,
    voluntaryCtxtSwitches: int32,
    nonvoluntaryCtxtSwitches: int32)

  /** What a record field holds. */
  datatype FieldValue = Text(text: string) | Count(count: int32)

  /** The field a label is stored in. */
  function Field(r: Record, l: Label): FieldValue
  {
    match l
    case Name => Text(r.name)
    case State => Text(r.state)
    case VmSize => Text(r.vmsize)
    case VmData => Text(r.vmdata)
    case VmStk => Text(r.vmstk)
    case VmExe => Text(r.vmexe)
    case NonvoluntaryCtxtSwitches => Count(r.nonvoluntaryCtxtSwitches)
    case VoluntaryCtxtSwitches => Count(r.voluntaryCtxtSwitches)
  }

  /** A record is its pid and its eight fields. */
  lemma RecordByFields(r: Record, s: Record)
    requires r.pid == s.pid
    requires forall l :: Field(r, l) == Field(s, l)
    ensures r == s
  {
    assert Field(r, Name) == Field(s, Name);
    assert Field(r, State) == Field(s, State);
    assert Field(r, VmSize) == Field(s, VmSize);
    assert Field(r, VmData) == Field(s, VmData);
    assert Field(r, VmStk) == Field(s, VmStk);
    assert Field(r, VmExe) == Field(s, VmExe);
    assert Field(r, NonvoluntaryCtxtSwitches) == Field(s, NonvoluntaryCtxtSwitches);
    assert Field(r, VoluntaryCtxtSwitches) == Field(s, VoluntaryCtxtSwitches);
  }

  /** A value of the kind the label's field holds: a count for the two
      context-switch labels, text for the other six. */
  predicate Fits(l: Label, v: FieldValue)
  {
    IsCount(l) <==> v.Count?
  }

  /** The record with the field of `l` set to `v` and everything else as it
      was: one branch of the loader's if/else chain. */
  function Store(r: Record, l: Label, v: FieldValue): (r': Record)
    requires Fits(l, v)
    ensures r'.pid == r.pid
    ensures Field(r', l) == v
    ensures forall l' :: l' != l ==> Field(r', l') == Field(r, l')
  {
    match l
    case Name => r.(name := v.text)
    case State => r.(state := v.text)
    case VmSize => r.(vmsize := v.text)
    case VmData => r.(vmdata := v.text)
    case VmStk => r.(vmstk := v.text)
    case VmExe => r.(vmexe := v.text)
    case NonvoluntaryCtxtSwitches => r.(nonvoluntaryCtxtSwitches := v.count)
    case VoluntaryCtxtSwitches => r.(voluntaryCtxtSwitches := v.count)
  }

  /** How the loader reads one line: Undefined where the C code has
      undefined behaviour (strstr, strcpy or atoi on a NULL token, atoi of a
      number outside the range of int, or a line longer than fgets ever
      delivers), Unlabelled when the first token holds none of the labels,
      and otherwise the label and the value it stores. */
  datatype Reading = Undefined | Unlabelled | Labelled(kind: Label, value: FieldValue)

  /** A reading the record can be updated with: a defined one, whose value fits its label's field. */
  predicate Sound(rd: Reading)
  {
    !rd.Undefined? && (rd.Labelled? ==> Fits(rd.kind, rd.value))
  }

  /** The line's reading: the first ":\t" token of the line's C string is
      classified; if a label is found, the second token is the value, copied
      verbatim for text fields and converted by atoi for the counts. */
  function ReadLine(line: string): (rd: Reading)
    ensures rd.Undefined? || Sound(rd)
  {
    if |line| >= MaxBuffer then Undefined
    else
      match Strtok(CStr(line))
      case None => Undefined
      case Some(first) =>
        match Classify(first.token)
        case None => Unlabelled
        case Some(l) =>
          match Strtok(first.rest)
          case None => Undefined
          case Some(second) =>
            if !IsCount(l) then Labelled(l, Text(second.token))
            else if InInt32(Atoi(second.token)) then Labelled(l, Count(Atoi(second.token) as int32))
            else Undefined
  }

  /** A line on which the loader's behaviour is defined. */
  predicate Defined(line: string) { !ReadLine(line).Undefined? }

  predicate AllDefined(lines: seq<string>)
  {
    forall i :: 0 <= i < |lines| ==> Defined(lines[i])
  }

  /** The record after one reading. An undefined reading never reaches the
      record in a run the loader defines (its callers must supply defined
      lines); it is given the identity only so that the fold below is total. */
  function Apply(r: Record, rd: Reading): (r': Record)
    ensures r'.pid == r.pid
  {
    match rd
    case Labelled(l, v) => if Fits(l, v) then Store(r, l, v) else r
    case _ => r
  }

  /** The record after the readings `rds`, in order. */
  function ApplyAll(r: Record, rds: seq<Reading>): Record
  {
    if rds == [] then r
    else Apply(ApplyAll(r, rds[..|rds| - 1]), rds[|rds| - 1])
  }

  /** The readings of a sequence of lines, one per line. */
  function Readings(lines: seq<string>): (rds: seq<Reading>)
    ensures |rds| == |lines|
  {
    seq(|lines|, i requires 0 <= i < |lines| => ReadLine(lines[i]))
  }

  /** The record after the loader has processed one line. */
  function ApplyLine(r: Record, line: string): Record
  {
    Apply(r, ReadLine(line))
  }

  /** The record after the loader has processed `lines` in order. */
  function ParseLines(r: Record, lines: seq<string>): Record
  {
    ApplyAll(r, Readings(lines))
  }

  /** Processing one more line is one more step of the fold. */
  lemma ParseLinesStep(r: Record, lines: seq<string>, i: nat)
    requires i < |lines|
    ensures ParseLines(r, lines[..i + 1]) == ApplyLine(ParseLines(r, lines[..i]), lines[i])
  {
    var rds := Readings(lines[..i + 1]);
    assert rds[..i] == Readings(lines[..i]);
  }

  // ---------------------------------------------------------------------
  // What one line does
  // ---------------------------------------------------------------------

  /** A line changes at most one field: the one of the first label, in rank
      order, contained in its first token, which receives the line's second
      token verbatim (text fields) or its atoi (counts); a line whose first
      token contains no label leaves the record as it is. */
  lemma LineUpdatesOneField(r: Record, line: string)
    requires Defined(line)
    ensures var first := Strtok(CStr(line));
      && first.Some?
      && match Classify(first.value.token)
         case None => ApplyLine(r, line) == r
         case Some(l) =>
           var second := Strtok(first.value.rest);
           && second.Some?
           && Field(ApplyLine(r, line), l) == (if IsCount(l) then Count(Atoi(second.value.token) as int32) else Text(second.value.token))
           && forall l' :: l' != l ==> Field(ApplyLine(r, line), l') == Field(r, l')
  {
  }

  /** The reading of a defined line, branch by branch, as the loader's loop
      body computes it: the first token is classified; a label makes the
      second strtok call return a token, whose atoi is an int for the counts. */
  lemma ReadLineCases(line: string)
    requires Defined(line)
    ensures Strtok(CStr(line)).Some?
    ensures var first := Strtok(CStr(line)).value;
      Classify(first.token).None? ==> ReadLine(line) == Unlabelled
    ensures var first := Strtok(CStr(line)).value;
      Classify(first.token).Some? ==>
        var l := Classify(first.token).value;
        && Strtok(first.rest).Some?
        && (IsCount(l) ==> InInt32(Atoi(Strtok(first.rest).value.token)))
        && ReadLine(line) == Labelled(l, if IsCount(l) then Count(Atoi(Strtok(first.rest).value.token) as int32)
                                         else Text(Strtok(first.rest).value.token))
  {
  }

  /** Because "nonvoluntary_ctxt_switches" contains "voluntary_ctxt_switches",
      only the earlier test keeps such a line away from the voluntary count:
      the line never changes that count. */
  lemma NonvoluntaryLineKeepsVoluntary(r: Record, line: string)
    requires Strtok(CStr(line)).Some?
    requires Strstr(Strtok(CStr(line)).value.token, "nonvoluntary_ctxt_switches")
    ensures ApplyLine(r, line).voluntaryCtxtSwitches == r.voluntaryCtxtSwitches
  {
    NeverVoluntary(Strtok(CStr(line)).value.token);
    ReadLineLabel(line);
    ApplyField(r, ReadLine(line), VoluntaryCtxtSwitches);
  }

  /** A line is read under the label its first token is classified under. */
  lemma ReadLineLabel(line: string)
    ensures ReadLine(line).Labelled? ==>
              Strtok(CStr(line)).Some? && Classify(Strtok(CStr(line)).value.token) == Some(ReadLine(line).kind)
  {
  }

  /** A first token containing "nonvoluntary_ctxt_switches" is never classified as voluntary. */
  lemma NeverVoluntary(token: string)
    requires Strstr(token, "nonvoluntary_ctxt_switches")
    ensures Classify(token) != Some(VoluntaryCtxtSwitches)
  {
    NonvoluntaryContainsVoluntary(token);
    ClassifyChain(token);
  }

  /** The longer label contains the shorter one, so a naive test of the
      shorter label first would misfile non-voluntary counts. */
  lemma NonvoluntaryContainsVoluntary(token: string)
    requires Strstr(token, "nonvoluntary_ctxt_switches")
    ensures Strstr(token, "voluntary_ctxt_switches")
  {
    var long := "nonvoluntary_ctxt_switches";
    var short := "voluntary_ctxt_switches";
    StrstrOccurs(token, long);
    var i :| OccursAt(long, token, i);
    OccursWithin(long, token, i, 3);
    LabelSuffix(long, short);
    StrstrOccurs(token, short);
  }

  /** The voluntary label is the non-voluntary one without its "non". */
  lemma LabelSuffix(long: string, short: string)
    requires long == "nonvoluntary_ctxt_switches" && short == "voluntary_ctxt_switches"
    ensures long[3..] == short
  {
  }

  /** The reading carries label `l`. */
  predicate IsLabel(rd: Reading, l: Label)
  {
    rd.Labelled? && rd.kind == l
  }

  /** A sound reading sets the field of its label and no other. */
  lemma ApplyField(r: Record, rd: Reading, l: Label)
    requires !rd.Labelled? || Fits(rd.kind, rd.value)
    ensures Field(Apply(r, rd), l) == if IsLabel(rd, l) then rd.value else Field(r, l)
  {
  }

  // ---------------------------------------------------------------------
  // What a sequence of lines does
  // ---------------------------------------------------------------------

  /** Parsing never changes the pid. */
  lemma {:induction false} ApplyAllKeepsPid(r: Record, rds: seq<Reading>)
    ensures ApplyAll(r, rds).pid == r.pid
  {
    if rds != [] {
      ApplyAllKeepsPid(r, rds[..|rds| - 1]);
    }
  }

  /** Assignments are unconditional, so the last reading with a label
      decides that label's field. */
  lemma {:induction false} LastReadingWins(r: Record, rds: seq<Reading>, l: Label, k: nat)
    requires forall i :: 0 <= i < |rds| ==> Sound(rds[i])
    requires k < |rds| && IsLabel(rds[k], l)
    requires forall j :: k < j < |rds| ==> !IsLabel(rds[j], l)
    ensures Field(ApplyAll(r, rds), l) == rds[k].value
  {
    var n := |rds|;
    var prefix := rds[..n - 1];
    if k < n - 1 {
      LastReadingWins(r, prefix, l, k);
    }
    ApplyField(ApplyAll(r, prefix), rds[n - 1], l);
  }

  /** A label no reading carries keeps the field it had. */
  lemma {:induction false} AbsentLabelKeepsField(r: Record, rds: seq<Reading>, l: Label)
    requires forall i :: 0 <= i < |rds| ==> Sound(rds[i])
    requires forall j :: 0 <= j < |rds| ==> !IsLabel(rds[j], l)
    ensures Field(ApplyAll(r, rds), l) == Field(r, l)
  {
    if rds != [] {
      var prefix := rds[..|rds| - 1];
      AbsentLabelKeepsField(r, prefix, l);
      ApplyField(ApplyAll(r, prefix), rds[|rds| - 1], l);
    }
  }

  /** Parsing never changes the pid. */
  lemma ParseKeepsPid(r: Record, lines: seq<string>)
    ensures ParseLines(r, lines).pid == r.pid
  {
    ApplyAllKeepsPid(r, Readings(lines));
  }

  /** The field of a label is set by the last line read under it ... */
  lemma LastLineWins(r: Record, lines: seq<string>, l: Label, k: nat)
    requires AllDefined(lines)
    requires k < |lines| && IsLabel(ReadLine(lines[k]), l)
    requires forall j :: k < j < |lines| ==> !IsLabel(ReadLine(lines[j]), l)
    ensures Field(ParseLines(r, lines), l) == ReadLine(lines[k]).value
  {
    LastReadingWins(r, Readings(lines), l, k);
  }

  /** ... and keeps its old value when no line is read under it. */
  lemma AbsentLabelKeepsFieldOfLines(r: Record, lines: seq<string>, l: Label)
    requires AllDefined(lines)
    requires forall j :: 0 <= j < |lines| ==> !IsLabel(ReadLine(lines[j]), l)
    ensures Field(ParseLines(r, lines), l) == Field(r, l)
  {
    AbsentLabelKeepsField(r, Readings(lines), l);
  }

  /** Lines whose first tokens contain none of the labels leave the record as it is. */
  lemma UnlabelledLinesKeepRecord(r: Record, lines: seq<string>)
    requires forall j :: 0 <= j < |lines| ==> ReadLine(lines[j]).Unlabelled?
    ensures ParseLines(r, lines) == r
  {
    forall l {
      AbsentLabelKeepsField(r, Readings(lines), l);
    }
    ApplyAllKeepsPid(r, Readings(lines));
    RecordByFields(ParseLines(r, lines), r);
  }

  // ---------------------------------------------------------------------
  // Bounds
  // ---------------------------------------------------------------------

  /** The token strcpy copies into a text field always fits, with its NUL, in the field's MaxBuffer bytes. */
  lemma TextValueFits(line: string)
    requires ReadLine(line).Labelled? && ReadLine(line).value.Text?
    ensures |ReadLine(line).value.text| + 1 <= MaxBuffer
  {
    var first := Strtok(CStr(line)).value;
    StrtokShrinks(CStr(line));
    StrtokShrinks(first.rest);
  }

  // ---------------------------------------------------------------------
  // Lines of the form label, separator, value
  // ---------------------------------------------------------------------

  /** A line made of a first token, a run of ':' and tab characters, and a
      value token is read under the first token's label, with the value
      token verbatim (newline included, since newline is not a delimiter)
      as text, or its atoi as a count. */
  lemma LabelledLine(token: string, sep: string, v: string, l: Label)
    requires token != [] && NoDelimiters(token)
    requires sep != [] && AllDelimiters(sep)
    requires v != [] && NoDelimiters(v)
    requires '\0' !in token + sep + v && |token + sep + v| < MaxBuffer
    requires Classify(token) == Some(l)
    requires IsCount(l) ==> InInt32(Atoi(v))
    ensures ReadLine(token + sep + v) == Labelled(l, if IsCount(l) then Count(Atoi(v) as int32) else Text(v))
  {
    LabelledLineTokens(token, sep, v);
  }

  /** The two strtok calls on such a line return the first token and the value token. */
  lemma LabelledLineTokens(token: string, sep: string, v: string)
    requires token != [] && NoDelimiters(token)
    requires sep != [] && AllDelimiters(sep)
    requires v != [] && NoDelimiters(v)
    requires '\0' !in token + sep + v
    ensures Strtok(CStr(token + sep + v)) == Some(Split(token, sep[1..] + v))
    ensures Strtok(sep[1..] + v) == Some(Split(v, []))
  {
    var line := token + sep + v;
    CStrPrefix(line);
    var rest := sep[1..] + v;
    assert line[..0] == [];
    assert line[0..|token|] == token;
    assert line[|token|] == sep[0];
    assert line[|token| + 1..] == rest;
    StrtokUnique(line, 0, token, rest);
    var i := |sep| - 1;
    assert rest[..i] == sep[1..];
    assert rest[i..i + |v|] == v;
    StrtokUnique(rest, i, v, []);
  }

  /** A first token without the capitals N, S and V (the context-switch
      labels are such tokens) can only be a count: the non-voluntary one
      when it contains that label, otherwise the voluntary one when it
      contains that label, otherwise nothing. */
  lemma ClassifyWithoutCapitals(t: string)
    requires 'N' !in t && 'S' !in t && 'V' !in t
    ensures Classify(t) == if Strstr(t, "nonvoluntary_ctxt_switches") then Some(NonvoluntaryCtxtSwitches)
                           else if Strstr(t, "voluntary_ctxt_switches") then Some(VoluntaryCtxtSwitches)
                           else None
  {
    ClassifyChain(t);
    StrstrMissingFirst(t, "Name");
    StrstrMissingFirst(t, "State");
    StrstrMissingFirst(t, "VmSize");
    StrstrMissingFirst(t, "VmData");
    StrstrMissingFirst(t, "VmStk");
    StrstrMissingFirst(t, "VmExe");
  }

  // ---------------------------------------------------------------------
  // Examples
  // ---------------------------------------------------------------------

  /** "Name:\tbash\n" sets the name to "bash\n", trailing newline included. */
  lemma NameLineExample(r: Record)
    ensures ReadLine("Name:\tbash\n") == Labelled(Name, Text("bash\n"))
    ensures ApplyLine(r, "Name:\tbash\n") == r.(name := "bash\n")
  {
    assert "Name" + ":\t" + "bash\n" == "Name:\tbash\n";
    LabelledLine("Name", ":\t", "bash\n", Name);
  }

  /** A line made of a count label's text, ":\t", one digit and a newline
      is read as that count with the digit's value. */
  lemma CountLine(t: string, d: char, l: Label)
    requires Classify(t) == Some(l) && IsCount(l)
    requires t != [] && ':' !in t && '\t' !in t && '\0' !in t && |t| < 100
    requires IsDigit(d)
    ensures ReadLine(t + ":\t" + [d, '\n']) == Labelled(l, Count((d as int - '0' as int) as int32))
  {
    assert NoDelimiters(t);
    AtoiDigitLine(d);
    LabelledLine(t, ":\t", [d, '\n'], l);
  }

  /** atoi reads a digit followed by a newline. */
  lemma AtoiDigitLine(c: char)
    requires IsDigit(c)
    ensures Atoi([c, '\n']) == c as int - '0' as int
  {
    AtoiUnspaced([c, '\n']);
  }

  /** Text made of lower-case letters and underscores only, like the two count labels. */
  predicate LowerCase(t: string)
  {
    forall k :: 0 <= k < |t| ==> 'a' <= t[k] <= 'z' || t[k] == '_'
  }

  /** Lower-case text holds no delimiter, no NUL and none of the capitals
      that start the six text labels. */
  lemma LowerCaseCharacters(t: string)
    requires LowerCase(t)
    ensures ':' !in t && '\t' !in t && '\0' !in t
    ensures 'N' !in t && 'S' !in t && 'V' !in t
  {
  }

  /** The voluntary label is classified as such. */
  lemma VoluntaryClassified(t: string)
    requires t == "voluntary_ctxt_switches"
    ensures Classify(t) == Some(VoluntaryCtxtSwitches)
  {
    assert LowerCase(t);
    LowerCaseCharacters(t);
    ClassifyWithoutCapitals(t);
    StrstrTooLong(t, "nonvoluntary_ctxt_switches");
    assert t <= t;
  }

  /** The non-voluntary label is classified as such, not as the voluntary one. */
  lemma NonvoluntaryClassified(t: string)
    requires t == "nonvoluntary_ctxt_switches"
    ensures Classify(t) == Some(NonvoluntaryCtxtSwitches)
  {
    assert LowerCase(t);
    LowerCaseCharacters(t);
    ClassifyWithoutCapitals(t);
    assert t <= t;
  }

  /** The voluntary count line splits into its label, ":\t" and "5\n". */
  lemma VoluntaryLineParts(line: string, t: string)
    requires line == "voluntary_ctxt_switches:\t5\n" && t == "voluntary_ctxt_switches"
    ensures line == t + ":\t" + ['5', '\n']
    ensures LowerCase(t)
  {
  }

  /** The non-voluntary count line splits into its label, ":\t" and "2\n". */
  lemma NonvoluntaryLineParts(line: string, t: string)
    requires line == "nonvoluntary_ctxt_switches:\t2\n" && t == "nonvoluntary_ctxt_switches"
    ensures line == t + ":\t" + ['2', '\n']
    ensures LowerCase(t)
  {
  }

  /** "voluntary_ctxt_switches:\t5\n" is read as the voluntary count 5. */
  lemma VoluntaryLineExample(line: string)
    requires line == "voluntary_ctxt_switches:\t5\n"
    ensures ReadLine(line) == Labelled(VoluntaryCtxtSwitches, Count(5))
  {
    var t := "voluntary_ctxt_switches";
    VoluntaryLineParts(line, t);
    LowerCaseCharacters(t);
    VoluntaryClassified(t);
    CountLine(t, '5', VoluntaryCtxtSwitches);
  }

  /** "nonvoluntary_ctxt_switches:\t2\n" is read as the non-voluntary count 2, not the voluntary one. */
  lemma NonvoluntaryLineExample(line: string)
    requires line == "nonvoluntary_ctxt_switches:\t2\n"
    ensures ReadLine(line) == Labelled(NonvoluntaryCtxtSwitches, Count(2))
  {
    var t := "nonvoluntary_ctxt_switches";
    NonvoluntaryLineParts(line, t);
    LowerCaseCharacters(t);
    NonvoluntaryClassified(t);
    CountLine(t, '2', NonvoluntaryCtxtSwitches);
  }

}
