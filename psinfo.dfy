/**
 * psinfo-l's process records and its two loops: load_info, which fills one
 * record from the lines of /proc/<pid>/status, and main, which turns the
 * command-line arguments into pids and loads one record per pid.
 *
 * The /proc file system is a parameter: a map from pid to the chunks fgets
 * delivers from that pid's status file; a pid without an entry is a status
 * file fopen cannot open.
 */
module PsInfo {
  import opened CString
  import opened Status

  /** One process's record (proc_info), filled in place by LoadInfo. */
  class ProcInfo {
    var pid: int32
    var name: string
    var state: string
    var vmsize: string
    var vmdata: string
    var vmexe: string
    var vmstk: string
    var voluntaryCtxtSwitches: int32
    var nonvoluntaryCtxtSwitches: int32

    /** The record the fields hold. */
    function Value(): Record
      reads this
    {
      Record(pid, name, state, vmsize, vmdata, vmexe, vmstk, voluntaryCtxtSwitches, nonvoluntaryCtxtSwitches)
    }

    /** A record whose memory holds `r`: what malloc hands out is whatever the memory held. */
    constructor (r: Record)
      ensures Value() == r
    {
      pid := r.pid;
      name := r.name;
      state := r.state;
      vmsize := r.vmsize;
      vmdata := r.vmdata;
      vmexe := r.vmexe;
      vmstk := r.vmstk;
      voluntaryCtxtSwitches := r.voluntaryCtxtSwitches;
      nonvoluntaryCtxtSwitches := r.nonvoluntaryCtxtSwitches;
    }

    /** load_info: open the status file of the record's pid (ok is false when
        that fails, where the C code's assert aborts the program, and nothing
        has been changed), then process its lines in order. */
    method LoadInfo(status: map<int32, seq<string>>) returns (ok: bool)
      requires pid in status ==> AllDefined(status[pid])
      modifies this
      ensures ok <==> old(pid) in status
      ensures ok ==> Value() == ParseLines(old(Value()), status[old(pid)])
      ensures !ok ==> Value() == old(Value())
    {
      var c := pid;
      if c !in status {
        return false;
      }
      var lines := status[c];
      pid := c;
      var i := 0;
      assert lines[..0] == [];
      while i < |lines|
        invariant 0 <= i <= |lines|
        invariant Value() == ParseLines(old(Value()), lines[..i])
      {
        ParseLinesStep(old(Value()), lines, i);
        LoadLine(lines[i]);
        i := i + 1;
      }
      assert lines[..i] == lines;
      return true;
    }

    /** One pass of load_info's loop body: the first token selects, through
        the chain of strstr tests, the field that receives the second token
        (strcpy for text, atoi for the counts). */
    method LoadLine(line: string)
      requires Defined(line)
      modifies this
      ensures Value() == ApplyLine(old(Value()), line)
    {
      ReadLineCases(line);
      var first := Strtok(CStr(line)).value;
      var branch := Select(first.token);
      if branch.Some? {
        var l := branch.value;
        var value := Strtok(first.rest).value.token;
        if IsCount(l) {
          Set(l, Count(Atoi(value) as int32));
        } else {
          Set(l, Text(value));
        }
      }
    }

    /** The branch of the field to set: the record changes in that field only. */
    method Set(l: Label, v: FieldValue)
      requires Fits(l, v)
      modifies this
      ensures Value() == Store(old(Value()), l, v)
    {
      match l
      case Name => name := v.text;
      case State => state := v.text;
      case VmSize => vmsize := v.text;
      case VmData => vmdata := v.text;
      case VmStk => vmstk := v.text;
      case VmExe => vmexe := v.text;
      case NonvoluntaryCtxtSwitches => nonvoluntaryCtxtSwitches := v.count;
      case VoluntaryCtxtSwitches => voluntaryCtxtSwitches := v.count;
    }
  }

  /** load_info's chain of strstr tests on the first token, in the order the
      branches are written: the label of the first branch taken, or None
      when no branch is. */
  method Select(token: string) returns (branch: Option<Label>)
    ensures branch == Classify(token)
  {
    ClassifyChain(token);
    if Strstr(token, "Name") {
      branch := Some(Name);
    } else if Strstr(token, "State") {
      branch := Some(State);
    } else if Strstr(token, "VmSize") {
      branch := Some(VmSize);
    } else if Strstr(token, "VmData") {
      branch := Some(VmData);
    } else if Strstr(token, "VmStk") {
      branch := Some(VmStk);
    } else if Strstr(token, "VmExe") {
      branch := Some(VmExe);
    } else if Strstr(token, "nonvoluntary_ctxt_switches") {
      branch := Some(NonvoluntaryCtxtSwitches);
    } else if Strstr(token, "voluntary_ctxt_switches") {
      branch := Some(VoluntaryCtxtSwitches);
    } else {
      branch := None;
    }
  }

  /** How the program ends. */
  datatype Exit =
    | UsageError              // fewer than one pid argument: "Error" and exit status 1
    | Aborted                 // a status file could not be opened: the assert aborts
    | Loaded(procs: seq<ProcInfo>)  // every record loaded, ready for print_info

  /** Where main's behaviour is defined: every argument's atoi is an int,
      and every status file it opens has only defined lines. */
  predicate DefinedRun(argv: seq<string>, status: map<int32, seq<string>>)
  {
    forall i :: 1 <= i < |argv| ==>
      InInt32(Atoi(argv[i])) &&
      (Atoi(argv[i]) as int32 in status ==> AllDefined(status[Atoi(argv[i]) as int32]))
  }

  /** The pids main reads: atoi of argv[1], argv[2], and so on. */
  function Pids(argv: seq<string>): seq<int32>
    requires DefinedRun(argv, map[])
  {
    if |argv| <= 1 then [] else seq(|argv| - 1, i requires 0 <= i < |argv| - 1 => Atoi(argv[i + 1]) as int32)
  }

  /** main: check the argument count, allocate one record per pid (its
      memory holding `uninit`), set each record's pid to atoi of its
      argument and load it. The loads run one after another: each touches
      only its own record. */
  method Run(argv: seq<string>, uninit: seq<Record>, status: map<int32, seq<string>>) returns (exit: Exit)
    requires DefinedRun(argv, status)
    requires |argv| >= 2 ==> |uninit| == |argv| - 1
    ensures exit.UsageError? <==> |argv| < 2
    ensures exit.Aborted? <==> |argv| >= 2 && exists i :: 0 <= i < |argv| - 1 && Pids(argv)[i] !in status
    ensures exit.Loaded? ==>
      && |exit.procs| == |argv| - 1
      && (forall i :: 0 <= i < |exit.procs| ==> fresh(exit.procs[i]))
      && (forall i, j :: 0 <= i < j < |exit.procs| ==> exit.procs[i] != exit.procs[j])
      && forall i :: 0 <= i < |exit.procs| ==>
           Pids(argv)[i] in status &&
           exit.procs[i].Value() == ParseLines(uninit[i].(pid := Pids(argv)[i]), status[Pids(argv)[i]])
  {
    if |argv| < 2 {
      return UsageError;
    }
    var pids := Pids(argv);
    var procs := Allocate(uninit);
    var ok := LoadAll(procs, pids, status);
    if !ok {
      return Aborted;
    }
    return Loaded(procs);
  }

  /** main's loop: set each record's pid and load it, stopping at the first
      status file that cannot be opened. */
  method LoadAll(procs: seq<ProcInfo>, pids: seq<int32>, status: map<int32, seq<string>>) returns (ok: bool)
    requires |procs| == |pids|
    requires forall j, k :: 0 <= j < k < |procs| ==> procs[j] != procs[k]
    requires forall j :: 0 <= j < |pids| && pids[j] in status ==> AllDefined(status[pids[j]])
    modifies set j | 0 <= j < |procs| :: procs[j]
    ensures ok <==> forall j :: 0 <= j < |pids| ==> pids[j] in status
    ensures ok ==> forall j :: 0 <= j < |procs| ==>
      procs[j].Value() == ParseLines(old(procs[j].Value()).(pid := pids[j]), status[pids[j]])
  {
    var i := 0;
    while i < |procs|
      invariant 0 <= i <= |procs|
      invariant forall j :: 0 <= j < i ==> pids[j] in status
      invariant forall j :: 0 <= j < i ==>
        procs[j].Value() == ParseLines(old(procs[j].Value()).(pid := pids[j]), status[pids[j]])
      invariant forall j :: i <= j < |procs| ==> procs[j].Value() == old(procs[j].Value())
    {
      var p := procs[i];
      label Before:
      p.pid := pids[i];
      ok := p.LoadInfo(status);
      if !ok {
        return;
      }
      assert forall j :: 0 <= j < |procs| && j != i ==> procs[j].Value() == old@Before(procs[j].Value());
      i := i + 1;
    }
    return true;
  }

  /** malloc of n records: n distinct new records whose memory holds `uninit`. */
  method Allocate(uninit: seq<Record>) returns (procs: seq<ProcInfo>)
    ensures |procs| == |uninit|
    ensures forall j :: 0 <= j < |procs| ==> fresh(procs[j]) && procs[j].Value() == uninit[j]
    ensures forall j, k :: 0 <= j < k < |procs| ==> procs[j] != procs[k]
  {
    procs := [];
    while |procs| < |uninit|
      invariant |procs| <= |uninit|
      invariant forall j :: 0 <= j < |procs| ==> fresh(procs[j]) && procs[j].Value() == uninit[j]
      invariant forall j, k :: 0 <= j < k < |procs| ==> procs[j] != procs[k]
    {
      var p := new ProcInfo(uninit[|procs|]);
      procs := procs + [p];
    }
  }
}
