/** The workflow definition shared by the compiler and the run-time modules. */
module Workflow {
  /** An identifier, given by its rank in the code-unit order of the strings a run uses.  The
      ranks that are not positive stand for the strings that are blank after trimming. */
  type Id = int

  predicate IsBlank(id: Id) {
    id <= 0
  }

  datatype Option<+T> = None | Some(value: T)

  datatype Result<+T, +E> = Ok(value: T) | Err(error: E)

  /** The node types the compiler's graph checks branch on; every other type is `Activity`. */
  datatype NodeKind = Start | End | Output | Sink | Router | Activity(name: string)

  /** `config` stands for the serialised node configuration. `broadcast`, `joinNodeId` and
      `routerNodeId` are the three configuration fields that bind a fork to its join. */
  datatype Node = Node(
    id: Id, kind: NodeKind, broadcast: bool, joinNodeId: Id, routerNodeId: Id, config: string)

  /** `loop` holds `maxIterations` when the edge is declared as a bounded return. */
  datatype Edge = Edge(id: Id, source: Id, handle: string, target: Id, loop: Option<int>)

  /** One entry of a branch's token path: the fork's frame and the branch taken there. */
  datatype Token = Token(frame: Id, branch: Id)

  predicate IsLoop(e: Edge) {
    e.loop.Some?
  }

  predicate Distinct<T(==)>(s: seq<T>) {
    forall i, j :: 0 <= i < j < |s| ==> s[i] != s[j]
  }

  function Elements<T>(s: seq<T>): set<T> {
    set x | x in s
  }

  function Min(a: nat, b: nat): nat {
    if a <= b then a else b
  }

  function Filter<T>(s: seq<T>, p: T -> bool): seq<T> {
    if s == [] then [] else (if p(s[0]) then [s[0]] else []) + Filter(s[1..], p)
  }

  lemma {:induction false} FilterMembers<T>(s: seq<T>, p: T -> bool)
    ensures forall x :: x in Filter(s, p) <==> x in s && p(x)
  {
    if s != [] {
      FilterMembers(s[1..], p);
      assert s == [s[0]] + s[1..];
    }
  }

  lemma FilterCons<T>(x: T, s: seq<T>, p: T -> bool)
    ensures Filter([x] + s, p) == (if p(x) then [x] else []) + Filter(s, p)
  {
    assert ([x] + s)[1..] == s;
  }

  lemma {:induction false} FilterConcat<T>(s: seq<T>, t: seq<T>, p: T -> bool)
    ensures Filter(s + t, p) == Filter(s, p) + Filter(t, p)
  {
    if s == [] {
      assert s + t == t;
    } else {
      FilterConcat(s[1..], t, p);
      var rest := s[1..] + t;
      assert s + t == [s[0]] + rest;
      FilterCons(s[0], rest, p);
      FilterCons(s[0], s[1..], p);
      hide Filter;
      assert s == [s[0]] + s[1..];
    }
  }

  lemma FilterSnoc<T>(s: seq<T>, x: T, p: T -> bool)
    ensures Filter(s + [x], p) == Filter(s, p) + (if p(x) then [x] else [])
  {
    FilterConcat(s, [x], p);
  }

  /** One finding per element that has a property, in list order. */
  function Reports<T, U>(s: seq<T>, p: T -> bool, report: T -> U): seq<U> {
    if s == [] then []
    else Reports(s[..|s| - 1], p, report) + if p(s[|s| - 1]) then [report(s[|s| - 1])] else []
  }

  lemma ReportsNext<T, U>(s: seq<T>, n: nat, p: T -> bool, report: T -> U)
    requires n < |s|
    ensures Reports(s[..n + 1], p, report) == Reports(s[..n], p, report) + if p(s[n]) then [report(s[n])] else []
  {
    assert s[..n + 1][..n] == s[..n];
  }

  lemma {:induction false} NoReports<T, U>(s: seq<T>, p: T -> bool, report: T -> U)
    ensures Reports(s, p, report) == [] <==> forall x :: x in s ==> !p(x)
  {
    if s != [] {
      NoReports(s[..|s| - 1], p, report);
      assert s == s[..|s| - 1] + [s[|s| - 1]];
    }
  }

  lemma {:induction false} ReportsAgree<T, U>(s: seq<T>, p: T -> bool, q: T -> bool, report: T -> U)
    requires forall x :: x in s ==> p(x) == q(x)
    ensures Reports(s, p, report) == Reports(s, q, report)
  {
    if s != [] { ReportsAgree(s[..|s| - 1], p, q, report); }
  }
}
