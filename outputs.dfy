/** `OutputsCollector`: named tensors gathered into three collections (console,
    network output, TensorBoard summaries), renamed on a name clash, or
    gathered per device and replaced by their mean when the graph is
    finalised. */
module Outputs {
  import opened Wrappers
  import opened Strings

  /** The collection tags the source dispatches on. */
  const CONSOLE: string := "niftynetconsole"
  const NETWORK_OUTPUT: string := "niftynetout"
  /** The value of `tf.GraphKeys.SUMMARIES`. */
  const TF_SUMMARIES: string := "summaries"

  /** The keys of `SUPPORTED_SUMMARY`. */
  const SUPPORTED_SUMMARY: set<string> :=
    {"scalar", "histogram", "image", "image3_sagittal", "image3_coronal", "image3_axial"}

  /** A dictionary value: one tensor, a list of per-device tensors still to be
      averaged, or the `reduce_mean` node that replaced such a list. Only
      `Pending` is a Python list; the other two are tensors. */
  datatype Entry<T> = Single(tensor: T) | Pending(tensors: seq<T>) | Mean(tensors: seq<T>)

  /** A summary op registered in the `TF_SUMMARIES` graph collection. */
  datatype SummaryOp<T> = SummaryOp(summaryType: string, tag: string, value: Entry<T>)

  /** What `variables` hands to the driver. */
  datatype Vars<T> = Dict(vars: map<string, Entry<T>>) | MergedSummary(ops: seq<SummaryOp<T>>)

  /** The three dictionaries of the collector. */
  datatype Bucket = Console | NetworkOutput | TfSummaries

  function BucketOf(collection: string): (r: Option<Bucket>)
    ensures r.Some? <==> collection in {CONSOLE, NETWORK_OUTPUT, TF_SUMMARIES}
    ensures collection == CONSOLE ==> r == Some(Console)
    ensures collection == NETWORK_OUTPUT ==> r == Some(NetworkOutput)
    ensures collection == TF_SUMMARIES ==> r == Some(TfSummaries)
  {
    if collection == CONSOLE then Some(Console)
    else if collection == NETWORK_OUTPUT then Some(NetworkOutput)
    else if collection == TF_SUMMARIES then Some(TfSummaries)
    else None
  }

  // ---------------------------------------------------------------------
  // Renaming on a clash: name, name_1, name_2, ...

  /** The k-th name tried: `name` itself, then `'{}_{}'.format(name, k)`. */
  function Candidate(name: string, k: nat): string {
    if k == 0 then name else name + "_" + Decimal(k)
  }

  lemma CandidateInjective(name: string, i: nat, j: nat)
    ensures Candidate(name, i) == Candidate(name, j) ==> i == j
  {
    if Candidate(name, i) == Candidate(name, j) && i != 0 && j != 0 {
      var s := Candidate(name, i);
      assert Decimal(i) == s[|name| + 1..] == Decimal(j);
      DecimalInjective(i, j);
    }
  }

  /** The first n names tried. */
  function Candidates(name: string, n: nat): set<string> {
    if n == 0 then {} else Candidates(name, n - 1) + {Candidate(name, n - 1)}
  }

  lemma {:induction false} CandidateNotEarlier(name: string, n: nat, m: nat)
    requires n <= m
    ensures Candidate(name, m) !in Candidates(name, n)
  {
    if n > 0 {
      CandidateNotEarlier(name, n - 1, m);
      CandidateInjective(name, n - 1, m);
    }
  }

  /** The names tried are pairwise distinct. */
  lemma {:induction false} CandidatesCount(name: string, n: nat)
    ensures |Candidates(name, n)| == n
  {
    if n > 0 {
      CandidatesCount(name, n - 1);
      CandidateNotEarlier(name, n - 1, n - 1);
    }
  }

  lemma SubsetCount(a: set<string>, b: set<string>)
    requires a <= b
    ensures |a| <= |b|
  {
    assert b == a + (b - a);
  }

  /** The first index at or after k whose name is free. It exists because the
      names tried are distinct and only finitely many are taken. */
  function FirstFreeFrom(name: string, keys: set<string>, k: nat): (r: nat)
    requires Candidates(name, k) <= keys
    ensures k <= r
    ensures Candidate(name, r) !in keys
    ensures forall j :: k <= j < r ==> Candidate(name, j) in keys
    decreases |keys| - k
  {
    CandidatesCount(name, k);
    SubsetCount(Candidates(name, k), keys);
    if Candidate(name, k) !in keys then k
    else
      CandidatesCount(name, k + 1);
      SubsetCount(Candidates(name, k + 1), keys);
      FirstFreeFrom(name, keys, k + 1)
  }

  /** The suffix the rename loop stops at: the smallest k whose name is free. */
  function FirstFreeIndex(name: string, keys: set<string>): (r: nat)
    ensures Candidate(name, r) !in keys
    ensures forall j :: 0 <= j < r ==> Candidate(name, j) in keys
  {
    FirstFreeFrom(name, keys, 0)
  }

  /** The rename loop of `_add_to_dict`: `name` if free, else `name_k` for the
      smallest k >= 1 that is free. */
  method UniqueName<V>(varDict: map<string, V>, name: string) returns (newName: string)
    ensures newName !in varDict
    ensures newName == Candidate(name, FirstFreeIndex(name, varDict.Keys))
  {
    newName := name;
    var uniqId := 0;
    while newName in varDict
      invariant uniqId <= FirstFreeIndex(name, varDict.Keys)
      invariant newName == Candidate(name, uniqId)
      decreases FirstFreeIndex(name, varDict.Keys) - uniqId
    {
      uniqId := uniqId + 1;
      newName := name + "_" + Decimal(uniqId);
    }
  }

  // ---------------------------------------------------------------------
  // `_add_to_dict` as a function of the dictionary

  /** The key `_add_to_dict` returns (or the error it raises), and the
      dictionary it leaves behind. */
  datatype Added<T> = Added(key: Result<string>, vars: map<string, Entry<T>>)

  /** The list already gathered under `name`, or `[]` (`var_dict.get(name, [])`). */
  function PendingList<T>(d: map<string, Entry<T>>, name: string): seq<T> {
    if name in d && d[name].Pending? then d[name].tensors else []
  }

  /** `_add_to_dict(var_dict, var, name, do_averaging)` where `averaging`
      stands for `do_averaging and n_devices > 1`. */
  function AddToDictSpec<T>(d: map<string, Entry<T>>, v: T, name: string, averaging: bool, nDevices: int): (r: Added<T>)
    // renaming path: a fresh key, bound to the tensor, nothing else touched
    ensures !averaging ==> r.key.Ok? && r.key.value !in d && r.vars == d[r.key.value := Single(v)]
    ensures !averaging ==> r.key.value == name || StartsWith(r.key.value, name + "_")
    // averaging path: the name is kept, and an error leaves the name holding a tensor untouched
    ensures averaging && name in d && !d[name].Pending? ==> r == Added(Err(AveragedNameTaken(name)), d)
    ensures averaging && !(name in d && !d[name].Pending?) ==>
              && r.vars == d[name := Pending(PendingList(d, name) + [v])]
              && (r.key.Ok? <==> |PendingList(d, name)| < nDevices)
              && (r.key.Ok? ==> r.key.value == name)
              && (r.key.Err? ==> r.key.error == AveragedNameOverused(name))
  {
    if averaging then
      if name in d && !d[name].Pending? then Added(Err(AveragedNameTaken(name)), d)
      else
        var list := PendingList(d, name) + [v];
        Added(if |list| > nDevices then Err(AveragedNameOverused(name)) else Ok(name),
              d[name := Pending(list)])
    else
      var k := FirstFreeIndex(name, d.Keys);
      assert k > 0 ==> Candidate(name, k)[..|name| + 1] == name + "_";
      Added(Ok(Candidate(name, k)), d[Candidate(name, k) := Single(v)])
  }

  /** Every list gathered for averaging holds at most one tensor per device. */
  ghost predicate ListsBounded<T>(d: map<string, Entry<T>>, nDevices: int) {
    forall k :: k in d && d[k].Pending? ==> |d[k].tensors| <= nDevices
  }

  /** A successful add keeps every list within the device count; a failed
      averaging add can leave an over-long list behind, as the source stores
      the list before checking its length. */
  lemma AddKeepsListsBounded<T>(d: map<string, Entry<T>>, v: T, name: string, averaging: bool, nDevices: int)
    requires ListsBounded(d, nDevices)
    ensures AddToDictSpec(d, v, name, averaging, nDevices).key.Ok? ==>
              ListsBounded(AddToDictSpec(d, v, name, averaging, nDevices).vars, nDevices)
    ensures averaging && PendingList(d, name) != [] && |PendingList(d, name)| == nDevices ==>
              && AddToDictSpec(d, v, name, averaging, nDevices).key.Err?
              && !ListsBounded(AddToDictSpec(d, v, name, averaging, nDevices).vars, nDevices)
  {
    var r := AddToDictSpec(d, v, name, averaging, nDevices);
    if averaging && PendingList(d, name) != [] && |PendingList(d, name)| == nDevices {
      assert r.vars[name].Pending? && |r.vars[name].tensors| == nDevices + 1;
    }
  }

  /** Adding the same name three times without averaging gives `a`, `a_1`, `a_2`. */
  lemma {:induction false} ThreeAddsOfOneName<T>(t0: T, t1: T, t2: T, nDevices: int)
    ensures var r0 := AddToDictSpec(map[], t0, "a", false, nDevices);
            var r1 := AddToDictSpec(r0.vars, t1, "a", false, nDevices);
            var r2 := AddToDictSpec(r1.vars, t2, "a", false, nDevices);
            && r0.key == Ok("a") && r1.key == Ok("a_1") && r2.key == Ok("a_2")
            && r2.vars == map["a" := Single(t0), "a_1" := Single(t1), "a_2" := Single(t2)]
  {
    var c0, c1, c2 := Candidate("a", 0), Candidate("a", 1), Candidate("a", 2);
    assert Decimal(1) == "1" && Decimal(2) == "2";
    assert c0 == "a" && c1 == "a_1" && c2 == "a_2";
    assert FirstFreeIndex("a", {}) == 0;
    assert FirstFreeIndex("a", {"a"}) == 1;
    assert FirstFreeIndex("a", {"a", "a_1"}) == 2;
  }

  /** With two devices, one averaged name takes two tensors; a third add
      fails, and the over-long list is already stored when it does. */
  lemma AveragedNameTakesOnePerDevice<T>(t0: T, t1: T, t2: T)
    ensures var r0 := AddToDictSpec(map[], t0, "loss", true, 2);
            var r1 := AddToDictSpec(r0.vars, t1, "loss", true, 2);
            var r2 := AddToDictSpec(r1.vars, t2, "loss", true, 2);
            && r0.key == Ok("loss") && r1.key == Ok("loss")
            && r1.vars == map["loss" := Pending([t0, t1])]
            && r2.key == Err(AveragedNameOverused("loss"))
            && r2.vars == map["loss" := Pending([t0, t1, t2])]
  {
    var empty: map<string, Entry<T>> := map[];
    var r0 := AddToDictSpec(empty, t0, "loss", true, 2);
    assert PendingList(empty, "loss") + [t0] == [t0];
    assert r0.vars == map["loss" := Pending([t0])];
    assert PendingList(r0.vars, "loss") == [t0];
    assert [t0] + [t1] == [t0, t1];
    var r1 := AddToDictSpec(r0.vars, t1, "loss", true, 2);
    assert r1.vars == map["loss" := Pending([t0, t1])];
    assert PendingList(r1.vars, "loss") == [t0, t1];
    assert [t0, t1] + [t2] == [t0, t1, t2];
  }

  // ---------------------------------------------------------------------
  // Finalisation: every gathered list becomes its mean

  function Finalised<T>(e: Entry<T>): (r: Entry<T>)
    ensures !r.Pending?
    ensures e.Pending? ==> r == Mean(e.tensors)
    ensures !e.Pending? ==> r == e
  {
    if e.Pending? then Mean(e.tensors) else e
  }

  /** The dictionary after `_average_variables_over_devices`. */
  function Averaged<T>(d: map<string, Entry<T>>): (r: map<string, Entry<T>>)
    ensures r.Keys == d.Keys
    ensures forall k :: k in r ==> !r[k].Pending?
    ensures forall k :: k in d && !d[k].Pending? ==> r[k] == d[k]
    ensures forall k :: k in d && d[k].Pending? ==> r[k] == Mean(d[k].tensors)
  {
    map k | k in d :: Finalised(d[k])
  }

  /** A second pass changes nothing. */
  lemma AveragedIdempotent<T>(d: map<string, Entry<T>>)
    ensures Averaged(Averaged(d)) == Averaged(d)
  {
  }

  /** The scalar summary added for an averaged entry. */
  function DeviceAverage<T>(name: string, tensors: seq<T>): SummaryOp<T> {
    SummaryOp("scalar", name + "_device_average_", Mean(tensors))
  }

  /** The summaries a pass over `d` adds when it creates summary ops. */
  ghost function DeviceAverageSummaries<T>(d: map<string, Entry<T>>): set<SummaryOp<T>> {
    set k | k in d && d[k].Pending? :: DeviceAverage(k, d[k].tensors)
  }

  /** The keys whose value is a list gathered for averaging. */
  ghost function PendingKeys<T>(d: map<string, Entry<T>>): set<string> {
    set k | k in d && d[k].Pending?
  }

  /** The keys of `d` outside `rest` whose value is a gathered list. */
  ghost function PendingKeysDone<T>(d: map<string, Entry<T>>, rest: set<string>): set<string> {
    set k | k in d && k !in rest && d[k].Pending?
  }

  /** Taking one more key out of `rest` adds it to the done set exactly
      when its value is a gathered list. */
  lemma PendingKeysDoneStep<T>(d: map<string, Entry<T>>, rest: set<string>, k: string)
    requires k in rest
    ensures k in d && d[k].Pending? ==> |PendingKeysDone(d, rest - {k})| == |PendingKeysDone(d, rest)| + 1
    ensures !(k in d && d[k].Pending?) ==> PendingKeysDone(d, rest - {k}) == PendingKeysDone(d, rest)
  {
    if k in d && d[k].Pending? {
      assert PendingKeysDone(d, rest - {k}) == PendingKeysDone(d, rest) + {k};
    }
  }

  /** A second pass adds no summary. */
  lemma NoSummariesAfterAveraging<T>(d: map<string, Entry<T>>)
    ensures DeviceAverageSummaries(Averaged(d)) == {}
  {
  }

  /** `tf.summary.merge_all`: no op when nothing was registered. */
  function MergeAll<T>(ops: seq<SummaryOp<T>>): (r: Option<seq<SummaryOp<T>>>)
    ensures r.None? <==> ops == []
    ensures r.Some? ==> r.value == ops
  {
    if ops == [] then None else Some(ops)
  }

  // ---------------------------------------------------------------------
  // The collector

  class OutputsCollector<T> {
    var consoleVars: map<string, Entry<T>>
    var summaryVars: map<string, Entry<T>>
    var outputVars: map<string, Entry<T>>
    /** The summary ops this collector has registered in the graph's
        `TF_SUMMARIES` collection, in registration order. */
    var summaryOps: seq<SummaryOp<T>>
    /** `_merge_op`: set by `finalise_output_op`. */
    var mergeOp: Option<seq<SummaryOp<T>>>
    const nDevices: int

    constructor (nDevices: int := 1)
      ensures consoleVars == map[] && summaryVars == map[] && outputVars == map[]
      ensures summaryOps == [] && mergeOp == None && this.nDevices == nDevices
    {
      consoleVars, summaryVars, outputVars := map[], map[], map[];
      summaryOps, mergeOp := [], None;
      this.nDevices := nDevices;
    }

    function VarDict(b: Bucket): map<string, Entry<T>>
      reads this
    {
      match b
      case Console => consoleVars
      case NetworkOutput => outputVars
      case TfSummaries => summaryVars
    }

    method SetVarDict(b: Bucket, d: map<string, Entry<T>>)
      modifies this
      ensures VarDict(b) == d
      ensures forall o :: o != b ==> VarDict(o) == old(VarDict(o))
      ensures b != Console ==> consoleVars == old(consoleVars)
      ensures b != NetworkOutput ==> outputVars == old(outputVars)
      ensures b != TfSummaries ==> summaryVars == old(summaryVars)
      ensures summaryOps == old(summaryOps) && mergeOp == old(mergeOp)
    {
      match b
      case Console => consoleVars := d;
      case NetworkOutput => outputVars := d;
      case TfSummaries => summaryVars := d;
    }

    /** `_add_to_dict` on the dictionary of bucket `b`. */
    method AddToDict(b: Bucket, v: T, name: string, doAveraging: bool := false) returns (r: Result<string>)
      modifies this
      ensures var spec := AddToDictSpec(old(VarDict(b)), v, name, doAveraging && nDevices > 1, nDevices);
              r == spec.key && VarDict(b) == spec.vars
      ensures forall o :: o != b ==> VarDict(o) == old(VarDict(o))
      ensures b != Console ==> consoleVars == old(consoleVars)
      ensures b != NetworkOutput ==> outputVars == old(outputVars)
      ensures b != TfSummaries ==> summaryVars == old(summaryVars)
      ensures summaryOps == old(summaryOps) && mergeOp == old(mergeOp)
    {
      var varDict := VarDict(b);
      if doAveraging && nDevices > 1 {
        if name in varDict && !varDict[name].Pending? {
          return Err(AveragedNameTaken(name));
        }
        var varList := if name in varDict then varDict[name].tensors else [];
        varList := varList + [v];
        SetVarDict(b, varDict[name := Pending(varList)]);
        if |varList| > nDevices {
          return Err(AveragedNameOverused(name));
        }
        return Ok(name);
      } else {
        var newName := UniqueName(varDict, name);
        SetVarDict(b, varDict[newName := Single(v)]);
        return Ok(newName);
      }
    }

    /** `_add_to_tf_summary`: the tensor is stored first; a summary op is
        registered only when the stored value is a single tensor. */
    method AddToTfSummary(v: T, name: string, averageOverDevices: bool := false, summaryType: string := "scalar") returns (r: Outcome)
      modifies this
      ensures var spec := AddToDictSpec(old(summaryVars), v, name, averageOverDevices && nDevices > 1, nDevices);
              && summaryVars == spec.vars
              && (spec.key.Err? ==> r == Fail(spec.key.error) && summaryOps == old(summaryOps))
              && (spec.key.Ok? && summaryVars[spec.key.value].Pending? ==> r == Pass && summaryOps == old(summaryOps))
              && (spec.key.Ok? && !summaryVars[spec.key.value].Pending? && summaryType !in SUPPORTED_SUMMARY ==>
                    r == Fail(UnsupportedSummaryType(summaryType)) && summaryOps == old(summaryOps))
              && (spec.key.Ok? && !summaryVars[spec.key.value].Pending? && summaryType in SUPPORTED_SUMMARY ==>
                    r == Pass && summaryOps == old(summaryOps) + [SummaryOp(summaryType, spec.key.value, Single(v))])
      ensures consoleVars == old(consoleVars) && outputVars == old(outputVars) && mergeOp == old(mergeOp)
    {
      var key := AddToDict(TfSummaries, v, name, averageOverDevices);
      assert VarDict(Console) == old(VarDict(Console)) && VarDict(NetworkOutput) == old(VarDict(NetworkOutput));
      if key.Err? {
        return Fail(key.error);
      }
      var values := summaryVars[key.value];
      if !values.Pending? {
        if summaryType !in SUPPORTED_SUMMARY {
          return Fail(UnsupportedSummaryType(summaryType));
        }
        summaryOps := summaryOps + [SummaryOp(summaryType, key.value, values)];
      }
      r := Pass;
    }

    /** `add_to_collection`: only the dictionary named by `collection` changes;
        an unknown tag fails and changes nothing. */
    method AddToCollection(v: T, name: string, averageOverDevices: bool := false, collection: string := CONSOLE,
                           summaryType: string := "scalar")
      returns (r: Outcome)
      modifies this
      ensures BucketOf(collection).None? ==>
                r == Fail(UnknownCollection(collection)) &&
                consoleVars == old(consoleVars) && outputVars == old(outputVars) && summaryVars == old(summaryVars) &&
                summaryOps == old(summaryOps)
      ensures BucketOf(collection).Some? ==>
                var b := BucketOf(collection).value;
                var spec := AddToDictSpec(old(VarDict(b)), v, name, averageOverDevices && nDevices > 1, nDevices);
                && VarDict(b) == spec.vars
                && (forall o :: o != b ==> VarDict(o) == old(VarDict(o)))
                && (b != TfSummaries ==> r == (if spec.key.Ok? then Pass else Fail(spec.key.error)))
                && (b != TfSummaries ==> summaryOps == old(summaryOps))
      ensures collection == TF_SUMMARIES ==>
                var spec := AddToDictSpec(old(summaryVars), v, name, averageOverDevices && nDevices > 1, nDevices);
                && (spec.key.Err? ==> r == Fail(spec.key.error) && summaryOps == old(summaryOps))
                && (spec.key.Ok? && spec.vars[spec.key.value].Pending? ==> r == Pass && summaryOps == old(summaryOps))
                && (spec.key.Ok? && !spec.vars[spec.key.value].Pending? && summaryType !in SUPPORTED_SUMMARY ==>
                      r == Fail(UnsupportedSummaryType(summaryType)) && summaryOps == old(summaryOps))
                && (spec.key.Ok? && !spec.vars[spec.key.value].Pending? && summaryType in SUPPORTED_SUMMARY ==>
                      r == Pass && summaryOps == old(summaryOps) + [SummaryOp(summaryType, spec.key.value, Single(v))])
      ensures collection != CONSOLE ==> consoleVars == old(consoleVars)
      ensures collection != NETWORK_OUTPUT ==> outputVars == old(outputVars)
      ensures collection != TF_SUMMARIES ==> summaryVars == old(summaryVars)
      ensures mergeOp == old(mergeOp)
    {
      if collection == CONSOLE {
        var key := AddToDict(Console, v, name, averageOverDevices);
        r := if key.Ok? then Pass else Fail(key.error);
      } else if collection == NETWORK_OUTPUT {
        var key := AddToDict(NetworkOutput, v, name, averageOverDevices);
        r := if key.Ok? then Pass else Fail(key.error);
      } else if collection == TF_SUMMARIES {
        r := AddToTfSummary(v, name, averageOverDevices, summaryType);
      } else {
        r := Fail(UnknownCollection(collection));
      }
    }

    /** `variables`: the current dictionaries for console and network output; for
        summaries the merged op once finalised, and an empty dictionary before. */
    function Variables(collection: string := CONSOLE): (r: Result<Vars<T>>)
      reads this
      ensures r.Err? <==> BucketOf(collection).None?
      ensures r.Err? ==> r.error == UnknownCollection(collection)
      ensures collection == CONSOLE ==> r == Ok(Dict(consoleVars))
      ensures collection == NETWORK_OUTPUT ==> r == Ok(Dict(outputVars))
      ensures collection == TF_SUMMARIES && mergeOp.None? ==> r == Ok(Dict(map[]))
      ensures collection == TF_SUMMARIES && mergeOp.Some? ==> r == Ok(MergedSummary(mergeOp.value))
    {
      if collection == CONSOLE then Ok(Dict(consoleVars))
      else if collection == TF_SUMMARIES then
        (if mergeOp.Some? then Ok(MergedSummary(mergeOp.value)) else Ok(Dict(map[])))
      else if collection == NETWORK_OUTPUT then Ok(Dict(outputVars))
      else Err(UnknownCollection(collection))
    }

    /** One pass of the loop in `_average_variables_over_devices`: a list
        under `varName` is overwritten by its mean and, with
        `createTfSummaryOp`, its device-average summary is registered. */
    method AverageEntry(b: Bucket, varName: string, createTfSummaryOp: bool)
      requires varName in VarDict(b)
      modifies this
      ensures VarDict(b) == old(VarDict(b))[varName := Finalised(old(VarDict(b))[varName])]
      ensures forall o :: o != b ==> VarDict(o) == old(VarDict(o))
      ensures b != Console ==> consoleVars == old(consoleVars)
      ensures b != NetworkOutput ==> outputVars == old(outputVars)
      ensures b != TfSummaries ==> summaryVars == old(summaryVars)
      ensures mergeOp == old(mergeOp)
      ensures summaryOps == old(summaryOps) +
                if createTfSummaryOp && old(VarDict(b))[varName].Pending?
                then [DeviceAverage(varName, old(VarDict(b))[varName].tensors)] else []
    {
      var values := VarDict(b)[varName];
      if values.Pending? {
        SetVarDict(b, VarDict(b)[varName := Mean(values.tensors)]);
        if createTfSummaryOp {
          summaryOps := summaryOps + [DeviceAverage(varName, values.tensors)];
        }
      } else {
        assert VarDict(b)[varName := values] == VarDict(b);
      }
    }

    /** `_average_variables_over_devices`: each list-valued entry is overwritten
        by its mean under the same key; with `createTfSummaryOp`, one scalar
        summary per averaged entry is registered. */
    method AverageVariablesOverDevices(b: Bucket, createTfSummaryOp: bool := false)
      modifies this
      ensures VarDict(b) == Averaged(old(VarDict(b)))
      ensures forall o :: o != b ==> VarDict(o) == old(VarDict(o))
      ensures b != Console ==> consoleVars == old(consoleVars)
      ensures b != NetworkOutput ==> outputVars == old(outputVars)
      ensures b != TfSummaries ==> summaryVars == old(summaryVars)
      ensures mergeOp == old(mergeOp)
      ensures |old(summaryOps)| <= |summaryOps| && summaryOps[..|old(summaryOps)|] == old(summaryOps)
      ensures !createTfSummaryOp ==> summaryOps == old(summaryOps)
      ensures createTfSummaryOp ==>
                forall s :: s in summaryOps[|old(summaryOps)|..] <==> s in DeviceAverageSummaries(old(VarDict(b)))
      ensures createTfSummaryOp ==> |summaryOps| - |old(summaryOps)| == |PendingKeys(old(VarDict(b)))|
    {
      ghost var d0 := VarDict(b);
      ghost var ops0 := summaryOps;
      ghost var added: seq<SummaryOp<T>> := [];
      var keys := VarDict(b).Keys;
      while keys != {}
        invariant keys <= d0.Keys
        invariant VarDict(b).Keys == d0.Keys
        invariant forall k :: k in d0 && k !in keys ==> VarDict(b)[k] == Finalised(d0[k])
        invariant forall k :: k in keys ==> VarDict(b)[k] == d0[k]
        invariant forall o :: o != b ==> VarDict(o) == old(VarDict(o))
        invariant b != Console ==> consoleVars == old(consoleVars)
        invariant b != NetworkOutput ==> outputVars == old(outputVars)
        invariant b != TfSummaries ==> summaryVars == old(summaryVars)
        invariant mergeOp == old(mergeOp)
        invariant summaryOps == ops0 + added
        invariant !createTfSummaryOp ==> added == []
        invariant createTfSummaryOp ==> forall s :: s in added ==> s in DeviceAverageSummaries(d0)
        invariant createTfSummaryOp ==>
                    forall k :: k in d0 && k !in keys && d0[k].Pending? ==> DeviceAverage(k, d0[k].tensors) in added
        invariant createTfSummaryOp ==> |added| == |PendingKeysDone(d0, keys)|
        decreases keys
      {
        var varName :| varName in keys;
        var values := VarDict(b)[varName];
        AverageEntry(b, varName, createTfSummaryOp);
        if createTfSummaryOp && values.Pending? {
          added := added + [DeviceAverage(varName, values.tensors)];
        }
        PendingKeysDoneStep(d0, keys, varName);
        keys := keys - {varName};
      }
      assert VarDict(b) == Averaged(d0);
      assert PendingKeysDone(d0, keys) == PendingKeys(d0);
      assert summaryOps[|ops0|..] == added;
    }

    /** `finalise_output_op`: averages all three dictionaries, adds the
        device-average summaries for the summary dictionary only, then merges
        every registered summary. */
    method FinaliseOutputOp()
      modifies this
      ensures consoleVars == Averaged(old(consoleVars))
      ensures outputVars == Averaged(old(outputVars))
      ensures summaryVars == Averaged(old(summaryVars))
      ensures |old(summaryOps)| <= |summaryOps| && summaryOps[..|old(summaryOps)|] == old(summaryOps)
      ensures forall s :: s in summaryOps[|old(summaryOps)|..] <==> s in DeviceAverageSummaries(old(summaryVars))
      ensures |summaryOps| - |old(summaryOps)| == |PendingKeys(old(summaryVars))|
      ensures mergeOp == MergeAll(summaryOps)
    {
      AverageVariablesOverDevices(Console, false);
      AverageVariablesOverDevices(NetworkOutput, false);
      AverageVariablesOverDevices(TfSummaries, true);
      mergeOp := MergeAll(summaryOps);
    }
  }
}

module OutputsScenarios {
  import opened Wrappers
  import opened Outputs

  /** The summary tag differs from the other two, and `text` is not a
      supported summary type. */
  lemma TagFacts()
    ensures BucketOf(TF_SUMMARIES) == Some(TfSummaries)
    ensures "text" !in SUPPORTED_SUMMARY && "scalar" in SUPPORTED_SUMMARY
  {
    assert TF_SUMMARIES[0] != CONSOLE[0] && TF_SUMMARIES[0] != NETWORK_OUTPUT[0];
    assert "text"[0] == 't';
  }

  /** Averaging a two-device list under `loss` adds exactly one summary. */
  lemma LossDeviceAverage<T>(t0: T, t1: T)
    ensures DeviceAverageSummaries(map["loss" := Pending([t0, t1])])
            == {SummaryOp("scalar", "loss_device_average_", Mean([t0, t1]))}
    ensures |PendingKeys(map["loss" := Pending([t0, t1])])| == 1
  {
    assert PendingKeys(map["loss" := Pending([t0, t1])]) == {"loss"};
    var d := map["loss" := Pending([t0, t1])];
    var op := SummaryOp("scalar", "loss_device_average_", Mean([t0, t1]));
    assert "loss" + "_device_average_" == "loss_device_average_";
    assert DeviceAverage("loss", d["loss"].tensors) == op;
    assert op in DeviceAverageSummaries(d);
    assert forall s :: s in DeviceAverageSummaries(d) ==> s == op;
  }

  /** With two devices, a summary averaged over devices is gathered as a
      list and registers no summary op; `variables(TF_SUMMARIES)` is empty
      until `finalise_output_op` replaces the list by its mean and merges the
      one device-average summary. */
  method AveragedSummaryAfterFinalise<T>(t0: T, t1: T) returns (before: Result<Vars<T>>, after: Result<Vars<T>>)
    ensures before == Ok(Dict(map[]))
    ensures after == Ok(MergedSummary([SummaryOp("scalar", "loss_device_average_", Mean([t0, t1]))]))
  {
    TagFacts();
    AveragedNameTakesOnePerDevice(t0, t1, t1);
    LossDeviceAverage(t0, t1);
    var c := new OutputsCollector<T>(2);
    var r0 := c.AddToCollection(t0, "loss", true, TF_SUMMARIES, "scalar");
    var r1 := c.AddToCollection(t1, "loss", true, TF_SUMMARIES, "scalar");
    assert c.summaryVars == map["loss" := Pending([t0, t1])];
    assert c.summaryOps == [];
    before := c.Variables(TF_SUMMARIES);
    c.FinaliseOutputOp();
    assert c.summaryOps[0..] == c.summaryOps;
    assert c.summaryOps == [c.summaryOps[0]] && c.summaryOps[0] in c.summaryOps;
    after := c.Variables(TF_SUMMARIES);
  }

  /** A summary type that is not supported fails, but only after the tensor
      has been stored under its name. */
  method UnsupportedTypeStillStores<T>(t: T) returns (r: Outcome, stored: map<string, Entry<T>>)
    ensures r == Fail(UnsupportedSummaryType("text"))
    ensures stored == map["x" := Single(t)]
  {
    TagFacts();
    var c := new OutputsCollector<T>(1);
    var empty: map<string, Entry<T>> := map[];
    assert FirstFreeIndex("x", empty.Keys) == 0;
    r := c.AddToCollection(t, "x", false, TF_SUMMARIES, "text");
    stored := c.summaryVars;
  }
}
