/** Per-branch output snapshots of parallel frames (server/workflow-parallel-scope.ts): isolation of
    sibling branches and the three-way merge at the join. */
module ParallelScope {
  import opened Workflow

  /** A JSON value up to its serialised text, by which the program compares values. */
  datatype Value = Null | Text(text: string) | List(items: seq<Value>)

  /** What scripts and nodes left behind; a property holding `undefined` counts as absent, since no
      snapshot keeps it. */
  type Record = map<string, Value>

  datatype Scope = Scope(vars: Record, nodes: Record)

  datatype Context = Context(scope: Scope, rest: string)

  /** `order` is the order in which the branches were created. */
  datatype ScopeFrame = ScopeFrame(base: Scope, order: seq<Id>, branches: map<Id, Scope>)

  type Scopes = map<Id, ScopeFrame>

  datatype ScopeError = SnapshotMissing | ScopesDisagree

  /** A frame as forked from distinct branches: one snapshot for each, and no other. */
  ghost predicate Complete(f: ScopeFrame) {
    && Distinct(f.order) && (forall i :: 0 <= i < |f.order| ==> f.order[i] in f.branches)
    && forall b :: b in f.branches ==> b in f.order
  }

  ghost predicate AllComplete(scopes: Scopes) {
    forall f :: f in scopes ==> Complete(scopes[f])
  }

  function ForkScopes(scopes: Scopes, frame: Id, branches: seq<Id>, context: Context): Scopes {
    scopes[frame := ScopeFrame(context.scope, branches, map b | b in branches :: context.scope)]
  }

  predicate HasBranch(scopes: Scopes, t: Token) {
    t.frame in scopes && t.branch in scopes[t.frame].branches
  }

  /** The branch's snapshot replaces the context's outputs; nothing happens outside a branch. */
  function Activated(scopes: Scopes, tokens: seq<Token>, context: Context): Result<Context, ScopeError> {
    if tokens == [] then Ok(context)
    else
      var t := tokens[|tokens| - 1];
      if !HasBranch(scopes, t) then Err(SnapshotMissing)
      else Ok(context.(scope := scopes[t.frame].branches[t.branch]))
  }

  function Saved(scopes: Scopes, tokens: seq<Token>, context: Context): Result<Scopes, ScopeError> {
    if tokens == [] then Ok(scopes)
    else
      var t := tokens[|tokens| - 1];
      if !HasBranch(scopes, t) then Err(SnapshotMissing)
      else
        var f := scopes[t.frame];
        Ok(scopes[t.frame := f.(branches := f.branches[t.branch := context.scope])])
  }

  // ----- isolation

  /** What a branch does while it is active: any change of the outputs it sees. */
  datatype Turn = Turn(tokens: seq<Token>, effect: Scope -> Scope)

  /** One turn of the scheduler: activate, let the branch work, save. */
  function Take(scopes: Scopes, context: Context, turn: Turn): Result<(Scopes, Context), ScopeError> {
    match Activated(scopes, turn.tokens, context)
    case Err(e) => Err(e)
    case Ok(active) =>
      var worked := active.(scope := turn.effect(active.scope));
      match Saved(scopes, turn.tokens, worked)
      case Err(e) => Err(e)
      case Ok(saved) => Ok((saved, worked))
  }

  function TakeAll(scopes: Scopes, context: Context, turns: seq<Turn>): Result<(Scopes, Context), ScopeError>
    decreases |turns|
  {
    if turns == [] then Ok((scopes, context))
    else
      match Take(scopes, context, turns[0])
      case Err(e) => Err(e)
      case Ok(next) => TakeAll(next.0, next.1, turns[1..])
  }

  /** The turns of one branch only, one after the other, on its own snapshot. */
  function Alone(scope: Scope, t: Token, turns: seq<Turn>): Scope
    decreases |turns|
  {
    if turns == [] then scope
    else Alone(if turns[0].tokens != [] && turns[0].tokens[|turns[0].tokens| - 1] == t then turns[0].effect(scope) else scope, t, turns[1..])
  }

  ghost predicate AllInBranches(scopes: Scopes, turns: seq<Turn>) {
    forall i :: 0 <= i < |turns| ==> turns[i].tokens != [] && HasBranch(scopes, turns[i].tokens[|turns[i].tokens| - 1])
  }

  /** Isolation: after any interleaving of turns of any branches of any frames, every branch has the
      snapshot it would have had alone, bases and branch lists are untouched, and nothing fails. */
  lemma {:induction false} BranchesAreIsolated(scopes: Scopes, context: Context, turns: seq<Turn>, t: Token)
    requires AllInBranches(scopes, turns) && HasBranch(scopes, t)
    ensures var r := TakeAll(scopes, context, turns);
            && r.Ok? && HasBranch(r.value.0, t)
            && r.value.0[t.frame].branches[t.branch] == Alone(scopes[t.frame].branches[t.branch], t, turns)
            && r.value.0[t.frame].base == scopes[t.frame].base && r.value.0[t.frame].order == scopes[t.frame].order
            && r.value.0.Keys == scopes.Keys && r.value.0[t.frame].branches.Keys == scopes[t.frame].branches.Keys
    decreases |turns|
  {
    if turns != [] {
      var next := Take(scopes, context, turns[0]).value;
      var u := turns[0].tokens[|turns[0].tokens| - 1];
      assert HasBranch(scopes, u);
      assert next.0.Keys == scopes.Keys;
      assert next.0[t.frame].branches.Keys == scopes[t.frame].branches.Keys;
      forall i | 0 <= i < |turns[1..]|
        ensures turns[1..][i].tokens != [] && HasBranch(next.0, turns[1..][i].tokens[|turns[1..][i].tokens| - 1])
      {
        assert turns[i + 1].tokens != [] && HasBranch(scopes, turns[i + 1].tokens[|turns[i + 1].tokens| - 1]);
      }
      BranchesAreIsolated(next.0, next.1, turns[1..], t);
    }
  }

  // ----- the merge

  function Lookup(r: Record, key: string): Option<Value> {
    if key in r then Some(r[key]) else None
  }

  /** What the branches that changed the key left there, in branch order. */
  function Changes(base: Record, branches: seq<Record>, key: string): seq<Option<Value>> {
    if branches == [] then []
    else (if Lookup(branches[0], key) != Lookup(base, key) then [Lookup(branches[0], key)] else []) + Changes(base, branches[1..], key)
  }

  function Listed(values: seq<Option<Value>>): seq<Value> {
    if values == [] then [] else [if values[0].Some? then values[0].value else Null] + Listed(values[1..])
  }

  predicate Agree(values: seq<Option<Value>>) {
    forall i :: 0 <= i < |values| ==> values[i] == values[0]
  }

  /** The value a join leaves under a key, none if the key is gone. */
  function MergedAt(base: Record, branches: seq<Record>, key: string): Option<Value> {
    var changes := Changes(base, branches, key);
    if changes == [] || (forall b :: b in branches ==> key !in b) then Lookup(base, key)
    else if Agree(changes) then changes[0]
    else Some(List(Listed(changes)))
  }

  function KeysOf(branches: seq<Record>): set<string> {
    if branches == [] then {} else branches[0].Keys + KeysOf(branches[1..])
  }

  lemma {:induction false} KeysOfMembers(branches: seq<Record>, key: string)
    ensures key in KeysOf(branches) <==> exists b :: b in branches && key in b
  {
    if branches != [] {
      KeysOfMembers(branches[1..], key);
      assert branches == [branches[0]] + branches[1..];
    }
  }

  // ----- what the merge means

  predicate SameAt(a: Record, b: Record, key: string) {
    (key in a <==> key in b) && (key in a ==> a[key] == b[key])
  }

  /** The positions from `i` on of the branches that changed the key. */
  ghost function Changers(base: Record, branches: seq<Record>, key: string, i: nat): (at: seq<nat>)
    requires i <= |branches|
    ensures forall k :: 0 <= k < |at| ==> i <= at[k] < |branches|
    decreases |branches| - i
  {
    if i == |branches| then []
    else (if SameAt(branches[i], base, key) then [] else [i]) + Changers(base, branches, key, i + 1)
  }

  /** The list holds what each of these branches left under the key, null for a deletion. */
  ghost predicate IsConflict(v: Value, at: seq<nat>, branches: seq<Record>, key: string)
    requires forall k :: 0 <= k < |at| ==> at[k] < |branches|
  {
    && v.List? && |v.items| == |at|
    && forall k :: 0 <= k < |at| ==>
                     if key in branches[at[k]] then v.items[k] == branches[at[k]][key] else v.items[k] == Null
  }

  ghost predicate AnyHas(branches: seq<Record>, key: string) {
    exists i :: 0 <= i < |branches| && key in branches[i]
  }

  /** Base where no branch changed the key or none has it; the changers' common value; or the list of
      what they left, in branch order. */
  ghost predicate IsMergeOf(merged: Record, base: Record, branches: seq<Record>, at: seq<nat>, key: string)
    requires forall k :: 0 <= k < |at| ==> at[k] < |branches|
  {
    if at == [] || !AnyHas(branches, key) then SameAt(merged, base, key)
    else if forall k :: 0 <= k < |at| ==> SameAt(branches[at[k]], branches[at[0]], key) then SameAt(merged, branches[at[0]], key)
    else key in merged && IsConflict(merged[key], at, branches, key)
  }

  ghost predicate IsMergeAt(merged: Record, base: Record, branches: seq<Record>, key: string) {
    IsMergeOf(merged, base, branches, Changers(base, branches, key, 0), key)
  }

  /** Those alone, all of them, each once and ascending. */
  lemma {:induction false} ChangersAscend(base: Record, branches: seq<Record>, key: string, i: nat)
    requires i <= |branches|
    ensures var at := Changers(base, branches, key, i);
            && (forall k, m :: 0 <= k < m < |at| ==> at[k] < at[m])
            && (forall k :: i <= k < |branches| ==> (k in at <==> !SameAt(branches[k], base, key)))
    decreases |branches| - i
  {
    hide SameAt;
    if i < |branches| { ChangersAscend(base, branches, key, i + 1); }
  }

  lemma {:induction false} ChangesAt(base: Record, branches: seq<Record>, key: string, i: nat)
    requires i <= |branches|
    ensures var at, changes := Changers(base, branches, key, i), Changes(base, branches[i..], key);
            |at| == |changes| && forall k :: 0 <= k < |at| ==> changes[k] == Lookup(branches[at[k]], key)
    decreases |branches| - i
  {
    if i < |branches| {
      ChangesAt(base, branches, key, i + 1);
      var rest := branches[i..];
      assert rest[0] == branches[i] && rest[1..] == branches[i + 1..];
      LookupSame(branches[i], base, key);
      hide Lookup, SameAt;
    }
  }

  lemma LookupSame(a: Record, b: Record, key: string)
    ensures SameAt(a, b, key) <==> Lookup(a, key) == Lookup(b, key)
  {
  }

  lemma {:induction false} ListedAt(values: seq<Option<Value>>)
    ensures |Listed(values)| == |values|
    ensures forall k :: 0 <= k < |values| ==> Listed(values)[k] == if values[k].Some? then values[k].value else Null
  {
    if values != [] { ListedAt(values[1..]); }
  }

  /** The merge, key by key, in terms of the records alone. */
  lemma MergedIsMerge(merged: Record, base: Record, branches: seq<Record>, key: string)
    requires Lookup(merged, key) == MergedAt(base, branches, key)
    ensures IsMergeAt(merged, base, branches, key)
  {
    ChangesAt(base, branches, key, 0);
    assert branches[0..] == branches;
    MergedFromChanges(merged, base, branches, key, Changers(base, branches, key, 0), Changes(base, branches, key));
  }

  lemma MergedFromChanges(merged: Record, base: Record, branches: seq<Record>, key: string, at: seq<nat>, changes: seq<Option<Value>>)
    requires changes == Changes(base, branches, key) && Lookup(merged, key) == MergedAt(base, branches, key)
    requires |at| == |changes| && forall k :: 0 <= k < |at| ==> at[k] < |branches| && changes[k] == Lookup(branches[at[k]], key)
    ensures IsMergeOf(merged, base, branches, at, key)
  {
    hide Changes, Agree, Listed;
    ListedAt(changes);
    AgreeAt(changes, at, branches, key);
    assert AnyHas(branches, key) <==> exists b :: b in branches && key in b by {
      if b :| b in branches && key in b { var i :| 0 <= i < |branches| && branches[i] == b; }
    }
    if at != [] && AnyHas(branches, key) && !Agree(changes) {
      assert IsConflict(merged[key], at, branches, key);
    }
  }

  lemma AgreeAt(changes: seq<Option<Value>>, at: seq<nat>, branches: seq<Record>, key: string)
    requires |at| == |changes| && forall k :: 0 <= k < |at| ==> at[k] < |branches| && changes[k] == Lookup(branches[at[k]], key)
    ensures Agree(changes) <==> forall k :: 0 <= k < |at| ==> SameAt(branches[at[k]], branches[at[0]], key)
  {
  }

  /** `mergeParallelScope` for one of the two output records. */
  method MergeRecord(base: Record, branches: seq<Record>) returns (merged: Record)
    ensures forall key :: Lookup(merged, key) == MergedAt(base, branches, key)
    ensures forall key :: IsMergeAt(merged, base, branches, key)
  {
    hide IsMergeAt;
    merged := base;
    var todo := KeysOf(branches);
    forall key ensures key !in todo ==> MergedAt(base, branches, key) == Lookup(base, key) {
      KeysOfMembers(branches, key);
    }
    while todo != {}
      invariant todo <= KeysOf(branches)
      invariant forall key :: key in todo ==> Lookup(merged, key) == Lookup(base, key)
      invariant forall key :: key !in todo ==> Lookup(merged, key) == MergedAt(base, branches, key)
      decreases |todo|
    {
      var key :| key in todo;
      todo := todo - {key};
      KeysOfMembers(branches, key);
      var changes := Changes(base, branches, key);
      if changes == [] { continue; }
      var value := if Agree(changes) then changes[0] else Some(List(Listed(changes)));
      merged := if value.Some? then merged[key := value.value] else merged - {key};
    }
    forall key ensures IsMergeAt(merged, base, branches, key) { MergedIsMerge(merged, base, branches, key); }
  }

  /** `Changes` collects exactly what differs from the base. */
  lemma {:induction false} ChangesMembers(base: Record, branches: seq<Record>, key: string)
    ensures forall v :: v in Changes(base, branches, key) <==>
              v != Lookup(base, key) && exists i :: 0 <= i < |branches| && Lookup(branches[i], key) == v
    ensures |Changes(base, branches, key)| <= |branches|
  {
    if branches != [] {
      ChangesMembers(base, branches[1..], key);
      forall v
        ensures v in Changes(base, branches, key) <==>
                v != Lookup(base, key) && exists i :: 0 <= i < |branches| && Lookup(branches[i], key) == v
      {
        if i :| 0 <= i < |branches[1..]| && Lookup(branches[1..][i], key) == v {
          assert Lookup(branches[i + 1], key) == v;
        }
        if i :| 0 <= i < |branches| && Lookup(branches[i], key) == v && i > 0 {
          assert Lookup(branches[1..][i - 1], key) == v;
        }
      }
    }
  }

  /** Whoever left the base value alone has no say: a key nobody changed keeps its base value ... */
  lemma {:induction false} UnchangedKeepsBase(base: Record, branches: seq<Record>, key: string)
    requires forall i :: 0 <= i < |branches| ==> Lookup(branches[i], key) == Lookup(base, key)
    ensures Changes(base, branches, key) == [] && MergedAt(base, branches, key) == Lookup(base, key)
  {
    if branches != [] { UnchangedKeepsBase(base, branches[1..], key); }
  }

  /** ... and one on which all changers agree takes their value, exactly unless every branch deleted
      a key of the base, in which case the base value comes back. */
  lemma AgreedChangeWinsIff(base: Record, branches: seq<Record>, key: string, v: Option<Value>)
    requires v != Lookup(base, key) && exists i :: 0 <= i < |branches| && Lookup(branches[i], key) == v
    requires forall i :: 0 <= i < |branches| ==> Lookup(branches[i], key) == Lookup(base, key) || Lookup(branches[i], key) == v
    ensures MergedAt(base, branches, key) == v <==> exists b :: b in branches && key in b
    ensures (forall b :: b in branches ==> key !in b) ==> MergedAt(base, branches, key) == Lookup(base, key)
  {
    ChangesMembers(base, branches, key);
    var changes := Changes(base, branches, key);
    assert v in changes;
    forall i | 0 <= i < |changes| ensures changes[i] == v {
      assert changes[i] in changes;
    }
  }

  /** Disagreeing changers are all listed, in branch order, a deletion as null. */
  lemma ConflictsAreListed(base: Record, branches: seq<Record>, key: string, i: nat, j: nat)
    requires i < |branches| && j < |branches| && Lookup(branches[i], key) != Lookup(branches[j], key)
    requires Lookup(branches[i], key) != Lookup(base, key) && Lookup(branches[j], key) != Lookup(base, key)
    ensures MergedAt(base, branches, key) == Some(List(Listed(Changes(base, branches, key))))
  {
    ChangesMembers(base, branches, key);
    var changes := Changes(base, branches, key);
    assert Lookup(branches[i], key) in changes && Lookup(branches[j], key) in changes;
    assert key in branches[i] || key in branches[j];
    assert branches[i] in branches && branches[j] in branches;
    AgreeMeansEqual(changes, Lookup(branches[i], key), Lookup(branches[j], key));
  }

  lemma AgreeMeansEqual(values: seq<Option<Value>>, u: Option<Value>, v: Option<Value>)
    requires u in values && v in values
    ensures Agree(values) ==> u == v
  {
  }

  // ----- the objects the engine holds

  class ScopeStore {
    var scopes: Scopes
    var context: Context

    constructor (context: Context)
      ensures scopes == map[] && this.context == context
    {
      scopes, this.context := map[], context;
    }

    /** The barrier created with the frame refuses repeated branches. */
    method Fork(frame: Id, branches: seq<Id>)
      requires Distinct(branches) && AllComplete(scopes)
      modifies this`scopes
      ensures AllComplete(scopes)
      ensures scopes == ForkScopes(old(scopes), frame, branches, context)
      ensures frame in scopes && scopes[frame].base == context.scope && scopes[frame].order == branches
      ensures forall b :: b in scopes[frame].branches.Keys <==> b in branches
      ensures forall b :: b in branches ==> scopes[frame].branches[b] == context.scope
      ensures forall f :: f != frame ==> (f in scopes <==> f in old(scopes)) && (f in scopes ==> scopes[f] == old(scopes)[f])
    {
      var base := context.scope;
      scopes := scopes[frame := ScopeFrame(base, branches, map b | b in branches :: base)];
    }

    method Activate(tokens: seq<Token>) returns (failed: Option<ScopeError>)
      modifies this`context
      ensures match Activated(scopes, tokens, old(context))
              case Ok(c) => failed.None? && context == c
              case Err(e) => failed == Some(e) && context == old(context)
      ensures tokens == [] ==> failed.None? && context == old(context)
      ensures tokens != [] ==>
                var t := tokens[|tokens| - 1];
                if t.frame in scopes && t.branch in scopes[t.frame].branches
                then failed.None? && context == old(context).(scope := scopes[t.frame].branches[t.branch])
                else failed == Some(SnapshotMissing) && context == old(context)
    {
      if tokens == [] { return None; }
      var t := tokens[|tokens| - 1];
      if !HasBranch(scopes, t) { return Some(SnapshotMissing); }
      context := context.(scope := scopes[t.frame].branches[t.branch]);
      failed := None;
    }

    method Save(tokens: seq<Token>) returns (failed: Option<ScopeError>)
      requires AllComplete(scopes)
      modifies this`scopes
      ensures AllComplete(scopes)
      ensures match Saved(old(scopes), tokens, context)
              case Ok(s) => failed.None? && scopes == s
              case Err(e) => failed == Some(e) && scopes == old(scopes)
    {
      if tokens == [] { return None; }
      var t := tokens[|tokens| - 1];
      if !HasBranch(scopes, t) { return Some(SnapshotMissing); }
      var f := scopes[t.frame];
      assert Complete(f);
      scopes := scopes[t.frame := f.(branches := f.branches[t.branch := context.scope])];
      failed := None;
    }

    /** `mergeParallelScope`: both records of the context become the three-way merge. */
    method Merge(frame: Id) returns (failed: Option<ScopeError>)
      requires AllComplete(scopes)
      modifies this`context
      ensures failed == if frame in scopes then None else Some(SnapshotMissing)
      ensures failed.Some? ==> context == old(context)
      ensures failed.None? ==>
                var branches := Snapshots(scopes[frame], scopes[frame].order);
                && context.rest == old(context).rest
                && (forall key :: Lookup(context.scope.vars, key) == MergedAt(scopes[frame].base.vars, VarsOf(branches), key))
                && (forall key :: Lookup(context.scope.nodes, key) == MergedAt(scopes[frame].base.nodes, NodesOf(branches), key))
                && (forall key :: IsMergeAt(context.scope.vars, scopes[frame].base.vars, VarsOf(branches), key))
                && (forall key :: IsMergeAt(context.scope.nodes, scopes[frame].base.nodes, NodesOf(branches), key))
    {
      if frame !in scopes { return Some(SnapshotMissing); }
      var f := scopes[frame];
      assert Complete(f);
      var branches := Snapshots(f, f.order);
      var vars := MergeRecord(f.base.vars, VarsOf(branches));
      var nodes := MergeRecord(f.base.nodes, NodesOf(branches));
      context := context.(scope := Scope(vars, nodes));
      failed := None;
    }
  }

  function Snapshots(f: ScopeFrame, order: seq<Id>): (r: seq<Scope>)
    requires forall i :: 0 <= i < |order| ==> order[i] in f.branches
    ensures |r| == |order| && forall i :: 0 <= i < |order| ==> r[i] == f.branches[order[i]]
  {
    if order == [] then [] else [f.branches[order[0]]] + Snapshots(f, order[1..])
  }

  function VarsOf(s: seq<Scope>): (r: seq<Record>)
    ensures |r| == |s| && forall i :: 0 <= i < |s| ==> r[i] == s[i].vars
  {
    if s == [] then [] else [s[0].vars] + VarsOf(s[1..])
  }

  function NodesOf(s: seq<Scope>): (r: seq<Record>)
    ensures |r| == |s| && forall i :: 0 <= i < |s| ==> r[i] == s[i].nodes
  {
    if s == [] then [] else [s[0].nodes] + NodesOf(s[1..])
  }
}
