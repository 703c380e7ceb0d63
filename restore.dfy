/** `global_vars_init_or_restore`: decides, for every variable of the graph,
    whether it is restored from a checkpoint (and from which entry of the
    restore registry) or initialised fresh. Registry entries are tried in
    ascending scope order and the first entry that can restore a variable
    claims it. */
module Restore {
  import opened Wrappers
  import opened Strings

  /** A registry entry: restore the variables under `scope` from checkpoint
      `checkpointName`, where they live under `checkpointScope`. */
  datatype RestoreEntry = RestoreEntry(scope: string, checkpointName: string, checkpointScope: string)

  /** A graph variable: its identity and its fully qualified name (`w/b:0`). */
  datatype Variable = Variable(id: nat, name: string)

  /** The arguments `restore_initializer` receives for one variable. */
  datatype Restoration = Restoration(checkpointName: string, varName: string, checkpointSubscope: Option<string>)

  /** The restoring assignments, keyed by variable, and the variables given a
      fresh initialiser, in `var_list` order. */
  datatype RestorePlan = RestorePlan(restored: map<Variable, Restoration>, initialiseFresh: seq<Variable>)

  /** A list comprehension `[x for x in s if p(x)]`. */
  function Filter<X(!new)>(s: seq<X>, p: X -> bool): (r: seq<X>)
    ensures forall x :: x in r <==> x in s && p(x)
    ensures |r| <= |s|
  {
    if s == [] then []
    else
      assert s == [s[0]] + s[1..];
      (if p(s[0]) then [s[0]] else []) + Filter(s[1..], p)
  }

  // ---------------------------------------------------------------------
  // `sorted(restorable, key=lambda x: x[0])`: a stable sort by scope

  predicate SortedByScope(es: seq<RestoreEntry>) {
    forall i, j :: 0 <= i < j < |es| ==> StrLe(es[i].scope, es[j].scope)
  }

  /** The entries registered for one scope, in order. */
  function WithScope(es: seq<RestoreEntry>, scope: string): seq<RestoreEntry> {
    if es == [] then []
    else (if es[0].scope == scope then [es[0]] else []) + WithScope(es[1..], scope)
  }

  /** Inserts `e` before the first entry whose scope is not smaller, so that
      `e` precedes the entries of equal scope. */
  function InsertByScope(e: RestoreEntry, es: seq<RestoreEntry>): (r: seq<RestoreEntry>)
    ensures multiset(r) == multiset(es) + multiset{e}
  {
    if es == [] then [e]
    else if StrLe(e.scope, es[0].scope) then [e] + es
    else
      assert es == [es[0]] + es[1..];
      [es[0]] + InsertByScope(e, es[1..])
  }

  lemma {:induction false} InsertKeepsSorted(e: RestoreEntry, es: seq<RestoreEntry>)
    requires SortedByScope(es)
    ensures SortedByScope(InsertByScope(e, es))
  {
    var r := InsertByScope(e, es);
    if es == [] {
    } else if StrLe(e.scope, es[0].scope) {
      forall j | 0 < j < |r|
        ensures StrLe(e.scope, r[j].scope)
      {
        if j > 1 {
          StrLeTransitive(e.scope, es[0].scope, es[j - 1].scope);
        }
      }
    } else {
      StrLeTotal(e.scope, es[0].scope);
      InsertKeepsSorted(e, es[1..]);
      var tail := InsertByScope(e, es[1..]);
      forall j | 0 <= j < |tail|
        ensures StrLe(es[0].scope, tail[j].scope)
      {
        assert tail[j] in multiset(tail);
        if tail[j] != e {
          assert tail[j] in es[1..];
        }
      }
    }
  }

  lemma WithScopeCons(x: RestoreEntry, es: seq<RestoreEntry>, scope: string)
    ensures WithScope([x] + es, scope) == (if x.scope == scope then [x] else []) + WithScope(es, scope)
  {
    assert ([x] + es)[1..] == es;
  }

  /** Two sequences of which one is empty can be prepended in either order. */
  lemma SwapEmpty<X>(a: seq<X>, b: seq<X>, t: seq<X>)
    requires a == [] || b == []
    ensures a + (b + t) == b + (a + t)
  {
    if a == [] {
      assert a + (b + t) == b + t;
      assert a + t == t;
    } else {
      assert b + (a + t) == a + t;
      assert b + t == t;
    }
  }

  /** The step of InsertStable where `e` goes past the first entry, whose
      scope is then smaller than, so different from, `e`'s. */
  lemma InsertStablePast(e: RestoreEntry, es: seq<RestoreEntry>, scope: string)
    requires es != [] && e.scope != es[0].scope
    requires WithScope(InsertByScope(e, es[1..]), scope)
             == (if e.scope == scope then [e] else []) + WithScope(es[1..], scope)
    ensures WithScope([es[0]] + InsertByScope(e, es[1..]), scope)
            == (if e.scope == scope then [e] else []) + WithScope(es, scope)
  {
    var tail := InsertByScope(e, es[1..]);
    var mine: seq<RestoreEntry> := if e.scope == scope then [e] else [];
    var first: seq<RestoreEntry> := if es[0].scope == scope then [es[0]] else [];
    var rest := WithScope(es[1..], scope);
    WithScopeCons(es[0], tail, scope);
    WithScopeCons(es[0], es[1..], scope);
    assert es == [es[0]] + es[1..];
    SwapEmpty(first, mine, rest);
  }

  /** Insertion puts `e` ahead of every entry of the same scope. */
  lemma {:induction false} InsertStable(e: RestoreEntry, es: seq<RestoreEntry>, scope: string)
    ensures WithScope(InsertByScope(e, es), scope) == (if e.scope == scope then [e] else []) + WithScope(es, scope)
  {
    if es == [] {
      WithScopeCons(e, [], scope);
    } else if StrLe(e.scope, es[0].scope) {
      WithScopeCons(e, es, scope);
    } else {
      StrLeReflexive(e.scope);
      InsertStable(e, es[1..], scope);
      InsertStablePast(e, es, scope);
    }
  }

  /** Insertion sort by scope, which keeps entries of equal scope in
      registration order as Python's `sorted` does. */
  function SortByScope(es: seq<RestoreEntry>): (r: seq<RestoreEntry>)
    ensures SortedByScope(r)
    ensures multiset(r) == multiset(es)
  {
    if es == [] then []
    else
      var rest := SortByScope(es[1..]);
      InsertKeepsSorted(es[0], rest);
      assert es == [es[0]] + es[1..];
      InsertByScope(es[0], rest)
  }

  /** The sort is stable: the entries of each scope keep their order. */
  lemma {:induction false} SortByScopeStable(es: seq<RestoreEntry>, scope: string)
    ensures WithScope(SortByScope(es), scope) == WithScope(es, scope)
  {
    if es != [] {
      SortByScopeStable(es[1..], scope);
      InsertStable(es[0], SortByScope(es[1..]), scope);
    }
  }

  // ---------------------------------------------------------------------
  // Names inside the checkpoint

  /** `rename`: every occurrence of the entry's scope becomes its checkpoint
      scope, then every `:0` is removed. */
  function Rename(name: string, e: RestoreEntry): string {
    ReplaceAll(ReplaceAll(name, e.scope, e.checkpointScope), ":0", "")
  }

  /** A name `scope + rest + ":0"` maps to `checkpointScope + rest` when the
      scope does not occur again and no `:` is left to match `:0`. */
  lemma RenameScopedName(e: RestoreEntry, rest: string)
    requires e.scope != [] && !Contains(rest + ":0", e.scope) && ':' !in e.checkpointScope + rest
    ensures Rename(e.scope + rest + ":0", e) == e.checkpointScope + rest
  {
    assert e.scope + rest + ":0" == e.scope + (rest + ":0");
    ReplaceLeading(e.scope, rest + ":0", e.checkpointScope);
    ReplaceAbsent(rest + ":0", e.scope, e.checkpointScope);
    assert e.checkpointScope + (rest + ":0") == (e.checkpointScope + rest) + ":0";
    DropOutputSuffix(e.checkpointScope + rest);
    assert ':' in ":0";
    AbsentCharNotContained(e.checkpointScope + rest, ":0", ':');
    ReplaceAbsent(e.checkpointScope + rest, ":0", "");
  }

  /** The initialiser arguments for `v` restored by entry `e`: the renamed
      name split at its last `/` into sub-scope and leaf. */
  function RestorationFor(e: RestoreEntry, v: Variable): (r: Restoration)
    ensures r.checkpointName == e.checkpointName
    ensures '/' !in r.varName
    ensures r.checkpointSubscope.Some? ==> r.checkpointSubscope.value + "/" + r.varName == Rename(v.name, e)
    ensures r.checkpointSubscope.None? ==> r.varName == Rename(v.name, e)
  {
    var (subscope, varName) := SplitLast(Rename(v.name, e));
    Restoration(e.checkpointName, varName, subscope)
  }

  /** A variable `scope/sub/leaf:0` is restored as `leaf` from the
      checkpoint sub-scope `checkpointScope/sub`, provided the scope does not
      recur in the rest of the name and no `:` is left to match `:0`. */
  lemma RestoreNestedName(e: RestoreEntry, id: nat, sub: string, leaf: string)
    requires e.scope != [] && '/' !in leaf
    requires !Contains("/" + sub + "/" + leaf + ":0", e.scope)
    requires ':' !in e.checkpointScope + "/" + sub + "/" + leaf
    ensures Rename(e.scope + "/" + sub + "/" + leaf + ":0", e) == e.checkpointScope + "/" + sub + "/" + leaf
    ensures RestorationFor(e, Variable(id, e.scope + "/" + sub + "/" + leaf + ":0"))
            == Restoration(e.checkpointName, leaf, Some(e.checkpointScope + "/" + sub))
  {
    var rest := "/" + sub + "/" + leaf;
    assert e.scope + "/" + sub + "/" + leaf + ":0" == e.scope + rest + ":0";
    assert rest + ":0" == "/" + sub + "/" + leaf + ":0";
    assert e.checkpointScope + rest == e.checkpointScope + "/" + sub + "/" + leaf;
    RenameScopedName(e, rest);
    assert e.checkpointScope + rest == (e.checkpointScope + "/" + sub) + "/" + leaf;
    SplitLastUnique(e.checkpointScope + "/" + sub, leaf);
  }

  // ---------------------------------------------------------------------
  // Which entry restores which variable

  /** `tf.get_collection(GLOBAL_VARIABLES, scope=scope)`, taken as selection
      by name prefix. */
  function VariablesInScope(globalVariables: seq<Variable>, scope: string): (r: seq<Variable>)
    ensures forall v :: v in r <==> v in globalVariables && StartsWith(v.name, scope)
  {
    Filter(globalVariables, (v: Variable) => StartsWith(v.name, scope))
  }

  /** Entry `e` can restore `v`: `v` is a global variable in the entry's
      scope, it is in `var_list`, the checkpoint exists, and the renamed name
      is listed in it. */
  predicate Matches(e: RestoreEntry, v: Variable, globalVariables: seq<Variable>, varList: seq<Variable>,
                    checkpoints: map<string, seq<string>>)
  {
    && v in globalVariables && StartsWith(v.name, e.scope)
    && v in varList
    && e.checkpointName in checkpoints
    && Rename(v.name, e) in checkpoints[e.checkpointName]
  }

  /** The position of the first entry that can restore `v`, if any. */
  function FirstMatch(es: seq<RestoreEntry>, v: Variable, globalVariables: seq<Variable>, varList: seq<Variable>,
                      checkpoints: map<string, seq<string>>): (r: Option<nat>)
    ensures r.Some? ==> r.value < |es| && Matches(es[r.value], v, globalVariables, varList, checkpoints)
    ensures r.Some? ==> forall j :: 0 <= j < r.value ==> !Matches(es[j], v, globalVariables, varList, checkpoints)
    ensures r.None? ==> forall j :: 0 <= j < |es| ==> !Matches(es[j], v, globalVariables, varList, checkpoints)
  {
    if es == [] then None
    else
      var earlier := FirstMatch(es[..|es| - 1], v, globalVariables, varList, checkpoints);
      if earlier.Some? then earlier
      else if Matches(es[|es| - 1], v, globalVariables, varList, checkpoints) then Some(|es| - 1)
      else None
  }

  /** Looking at one more entry: a variable already claimed stays with its
      entry, otherwise the new entry claims it if it can restore it. */
  lemma FirstMatchExtend(es: seq<RestoreEntry>, i: nat, v: Variable, globalVariables: seq<Variable>,
                         varList: seq<Variable>, checkpoints: map<string, seq<string>>)
    requires i < |es|
    ensures var before := FirstMatch(es[..i], v, globalVariables, varList, checkpoints);
            FirstMatch(es[..i + 1], v, globalVariables, varList, checkpoints)
              == if before.Some? then before
                 else if Matches(es[i], v, globalVariables, varList, checkpoints) then Some(i)
                 else None
  {
    assert es[..i + 1][..i] == es[..i];
  }

  /** `var_list`, or every global variable when it is not given. */
  function VarListOr(varList: Option<seq<Variable>>, globalVariables: seq<Variable>): seq<Variable> {
    if varList.Some? then varList.value else globalVariables
  }

  /** `sorted[k]` is the first entry whose checkpoint cannot be found. */
  ghost predicate FirstMissingAt(sorted: seq<RestoreEntry>, k: int, checkpoints: map<string, seq<string>>) {
    0 <= k < |sorted| && sorted[k].checkpointName !in checkpoints
    && forall j :: 0 <= j < k ==> sorted[j].checkpointName in checkpoints
  }

  /** No scope ancestor can restore a variable that an entry claims: every
      registered entry whose scope is a proper prefix of the claiming
      entry's scope sorts earlier and fails to match the variable. */
  lemma AncestorCannotRestore(restorable: seq<RestoreEntry>, v: Variable, globalVariables: seq<Variable>,
                              varList: seq<Variable>, checkpoints: map<string, seq<string>>)
    ensures var sorted := SortByScope(restorable);
            var claim := FirstMatch(sorted, v, globalVariables, varList, checkpoints);
            claim.Some? ==>
              forall e :: e in restorable && StartsWith(sorted[claim.value].scope, e.scope)
                          && e.scope != sorted[claim.value].scope ==>
                !Matches(e, v, globalVariables, varList, checkpoints)
  {
    var sorted := SortByScope(restorable);
    var claim := FirstMatch(sorted, v, globalVariables, varList, checkpoints);
    if claim.Some? {
      var m := claim.value;
      forall e | e in restorable && StartsWith(sorted[m].scope, e.scope) && e.scope != sorted[m].scope
        ensures !Matches(e, v, globalVariables, varList, checkpoints)
      {
        assert e in multiset(sorted);
        var j :| 0 <= j < |sorted| && sorted[j] == e;
        AncestorSortsEarlier(sorted, m, j);
      }
    }
  }

  /** In a list sorted by scope, an entry whose scope is a proper prefix of
      another's comes before it. */
  lemma AncestorSortsEarlier(sorted: seq<RestoreEntry>, m: nat, j: nat)
    requires SortedByScope(sorted) && m < |sorted| && j < |sorted|
    requires StartsWith(sorted[m].scope, sorted[j].scope) && sorted[j].scope != sorted[m].scope
    ensures j < m
  {
    PrefixLe(sorted[j].scope, sorted[m].scope);
    if m < j {
      assert StrLe(sorted[m].scope, sorted[j].scope);
      StrLeAntisymmetric(sorted[j].scope, sorted[m].scope);
    }
  }

  /** The inner loop over `to_restore`: a variable already claimed is
      skipped, every other one is claimed for `entry`. */
  method ClaimVariables(restored: map<Variable, Restoration>, toRestore: seq<Variable>, entry: RestoreEntry)
    returns (claimed: map<Variable, Restoration>)
    ensures forall v :: v in claimed <==> v in restored || v in toRestore
    ensures forall v :: v in restored ==> claimed[v] == restored[v]
    ensures forall v :: v in claimed && v !in restored ==> claimed[v] == RestorationFor(entry, v)
  {
    claimed := restored;
    for m := 0 to |toRestore|
      invariant forall v :: v in claimed <==> v in restored || v in toRestore[..m]
      invariant forall v :: v in restored ==> claimed[v] == restored[v]
      invariant forall v :: v in claimed && v !in restored ==> claimed[v] == RestorationFor(entry, v)
    {
      var v := toRestore[m];
      assert toRestore[..m + 1] == toRestore[..m] + [v];
      if v in claimed {
        continue;
      }
      claimed := claimed[v := RestorationFor(entry, v)];
    }
    assert toRestore[..|toRestore|] == toRestore;
  }

  /** The loop over the sorted entries: every entry's checkpoint is looked
      up in turn, and the first one missing aborts; otherwise each variable
      is claimed by the first entry that matches it. */
  method ClaimInOrder(sorted: seq<RestoreEntry>, globalVariables: seq<Variable>, vars: seq<Variable>,
                      checkpoints: map<string, seq<string>>)
    returns (r: Result<map<Variable, Restoration>>)
    ensures r.Err? <==> exists j :: 0 <= j < |sorted| && sorted[j].checkpointName !in checkpoints
    ensures r.Err? ==> exists k :: FirstMissingAt(sorted, k, checkpoints)
                                   && r.error == CheckpointNotFound(sorted[k].checkpointName)
    ensures r.Ok? ==> forall v :: v in r.value <==> FirstMatch(sorted, v, globalVariables, vars, checkpoints).Some?
    ensures r.Ok? ==> forall v :: v in r.value ==>
                        r.value[v] == RestorationFor(sorted[FirstMatch(sorted, v, globalVariables, vars, checkpoints).value], v)
  {
    var restored: map<Variable, Restoration> := map[];
    for i := 0 to |sorted|
      invariant forall j :: 0 <= j < i ==> sorted[j].checkpointName in checkpoints
      invariant forall v :: v in restored <==> FirstMatch(sorted[..i], v, globalVariables, vars, checkpoints).Some?
      invariant forall v :: v in restored ==>
                  restored[v] == RestorationFor(sorted[FirstMatch(sorted[..i], v, globalVariables, vars, checkpoints).value], v)
    {
      var entry := sorted[i];
      var variablesInScope := VariablesInScope(globalVariables, entry.scope);
      if entry.checkpointName !in checkpoints {
        r := Err(CheckpointNotFound(entry.checkpointName));
        assert FirstMissingAt(sorted, i, checkpoints);
        return;
      }
      var variablesInFile := checkpoints[entry.checkpointName];
      var toRestore := Filter(variablesInScope, (v: Variable) => v in vars && Rename(v.name, entry) in variablesInFile);
      restored := ClaimVariables(restored, toRestore, entry);
      forall v
        ensures v in restored <==> FirstMatch(sorted[..i + 1], v, globalVariables, vars, checkpoints).Some?
        ensures v in restored ==>
                  restored[v] == RestorationFor(sorted[FirstMatch(sorted[..i + 1], v, globalVariables, vars, checkpoints).value], v)
      {
        FirstMatchExtend(sorted, i, v, globalVariables, vars, checkpoints);
        assert v in toRestore <==> Matches(entry, v, globalVariables, vars, checkpoints);
      }
    }
    assert sorted[..|sorted|] == sorted;
    r := Ok(restored);
  }

  /** The plan: entries in ascending scope order; each variable is claimed by
      the first entry able to restore it; the rest of `var_list` is
      initialised fresh. A missing checkpoint aborts the whole plan. */
  method GlobalVarsInitOrRestore(varList: Option<seq<Variable>>, globalVariables: seq<Variable>,
                                 restorable: seq<RestoreEntry>, checkpoints: map<string, seq<string>>)
    returns (r: Result<RestorePlan>)
    ensures r.Err? <==> exists e :: e in restorable && e.checkpointName !in checkpoints
    ensures r.Err? ==> exists k :: FirstMissingAt(SortByScope(restorable), k, checkpoints)
                                   && r.error == CheckpointNotFound(SortByScope(restorable)[k].checkpointName)
    ensures var sorted, vars := SortByScope(restorable), VarListOr(varList, globalVariables);
            r.Ok? ==> forall v :: v in r.value.restored <==> FirstMatch(sorted, v, globalVariables, vars, checkpoints).Some?
    ensures var sorted, vars := SortByScope(restorable), VarListOr(varList, globalVariables);
            r.Ok? ==> forall v :: v in r.value.restored ==>
                        r.value.restored[v] == RestorationFor(sorted[FirstMatch(sorted, v, globalVariables, vars, checkpoints).value], v)
    ensures var vars := VarListOr(varList, globalVariables);
            r.Ok? ==> r.value.initialiseFresh == Filter(vars, (v: Variable) => v !in r.value.restored)
    ensures var vars := VarListOr(varList, globalVariables);
            r.Ok? ==> forall v :: v in vars ==> (v in r.value.restored <==> v !in r.value.initialiseFresh)
    ensures var vars := VarListOr(varList, globalVariables);
            r.Ok? ==> forall v :: v in r.value.restored ==> v in vars
  {
    var vars := if varList.Some? then varList.value else globalVariables;
    var sorted := SortByScope(restorable);
    var claimed := ClaimInOrder(sorted, globalVariables, vars, checkpoints);
    if claimed.Err? {
      var j :| 0 <= j < |sorted| && sorted[j].checkpointName !in checkpoints;
      assert sorted[j] in multiset(sorted);
      return Err(claimed.error);
    }
    forall e | e in restorable
      ensures e.checkpointName in checkpoints
    {
      assert e in multiset(sorted);
      var j :| 0 <= j < |sorted| && sorted[j] == e;
    }
    var restored := claimed.value;
    var initOthers := Filter(vars, (v: Variable) => v !in restored);
    r := Ok(RestorePlan(restored, initOthers));
  }
}

module RestoreScenarios {
  import opened Wrappers
  import opened Strings
  import opened Restore

  /** The checkpoint scope `A` does not contain `:`, and the scope `A` does
      not recur after the front of `A/B/w:0`. */
  lemma ParentNameFacts()
    ensures !Contains("/" + "B" + "/" + "w" + ":0", "A")
    ensures ':' !in "A" + "/" + "B" + "/" + "w"
    ensures "A" + "/" + "B" + "/" + "w" + ":0" == "A/B/w:0"
  {
    assert "/" + "B" + "/" + "w" + ":0" == "/B/w:0";
    AbsentCharNotContained("/B/w:0", "A", 'A');
  }

  /** `A/B/w:0` is named `A/B/w` in checkpoint `ckA` when restored through
      the entry for scope `A`. */
  lemma ParentEntryRestores()
    ensures Rename("A/B/w:0", RestoreEntry("A", "ckA", "A")) == "A" + "/" + "B" + "/" + "w"
    ensures RestorationFor(RestoreEntry("A", "ckA", "A"), Variable(0, "A/B/w:0"))
            == Restoration("ckA", "w", Some("A" + "/" + "B"))
  {
    ParentNameFacts();
    RestoreNestedName(RestoreEntry("A", "ckA", "A"), 0, "B", "w");
  }

  /** Sorting puts the entry for `A` ahead of the entry for `A/B`. */
  lemma ParentSortsFirst(eA: RestoreEntry, eAB: RestoreEntry)
    requires eA == RestoreEntry("A", "ckA", "A") && eAB == RestoreEntry("A/B", "ckB", "X")
    ensures SortByScope([eAB, eA]) == [eA, eAB]
  {
    assert !StrLe("A/B", "A") by {
      assert "A/B"[1..] == "/B" && "A"[1..] == "";
    }
    assert [eAB, eA][1..] == [eA];
    assert SortByScope([eA]) == [eA];
  }

  const EntryA := RestoreEntry("A", "ckA", "A")
  const EntryAB := RestoreEntry("A/B", "ckB", "X")
  const W := Variable(0, "A/B/w:0")
  /** Both checkpoints list `w` under the name each entry renames it to. */
  const Listing := map["ckA" := ["A/B/w"], "ckB" := ["X/w"]]

  /** Of the sorted entries, the one for `A` is the first to match `W`. */
  lemma ParentMatchesFirst()
    ensures FirstMatch([EntryA, EntryAB], W, [W], [W], Listing) == Some(0)
  {
    ParentEntryRestores();
    assert "A" + "/" + "B" + "/" + "w" == "A/B/w";
    assert StartsWith(W.name, EntryA.scope);
    assert Matches(EntryA, W, [W], [W], Listing);
    assert [EntryA, EntryAB][..1] == [EntryA];
  }

  /** A plan that agrees with the sorted entries gives `W` to `A` alone
      and initialises nothing fresh. */
  lemma ParentPlan(plan: RestorePlan)
    requires forall v :: v in plan.restored <==> FirstMatch([EntryA, EntryAB], v, [W], [W], Listing).Some?
    requires forall v :: v in plan.restored ==>
               plan.restored[v] == RestorationFor([EntryA, EntryAB][FirstMatch([EntryA, EntryAB], v, [W], [W], Listing).value], v)
    requires plan.initialiseFresh == Filter([W], (v: Variable) => v !in plan.restored)
    ensures plan == RestorePlan(map[W := Restoration("ckA", "w", Some("A/B"))], [])
  {
    ParentMatchesFirst();
    ParentEntryRestores();
    assert "A" + "/" + "B" == "A/B";
    forall v | v in plan.restored
      ensures v == W
    {
      var k := FirstMatch([EntryA, EntryAB], v, [W], [W], Listing);
      assert Matches([EntryA, EntryAB][k.value], v, [W], [W], Listing);
    }
    assert plan.restored == map[W := Restoration("ckA", "w", Some("A/B"))];
  }

  /** Two entries can restore `A/B/w:0`: the one for `A/B` is registered
      first, but the one for `A` sorts first and claims the variable. */
  method ParentScopeClaimsFirst() returns (r: Result<RestorePlan>)
    ensures r == Ok(RestorePlan(map[W := Restoration("ckA", "w", Some("A/B"))], []))
  {
    ParentSortsFirst(EntryA, EntryAB);
    r := GlobalVarsInitOrRestore(None, [W], [EntryAB, EntryA], Listing);
    assert r.Ok?;
    ParentPlan(r.value);
  }
}
