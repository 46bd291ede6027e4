/** Effective permissions of an account: the level-by-level ancestor walk under row locks
    (server/iam-locked-permissions.ts) against the recursive query (server/iam-service.ts). */
module IamPermissions {
  import opened Workflow

  datatype Unit = Unit(parent: Option<Id>, active: bool)

  datatype UnitRole = UnitRole(unit: Id, role: Id, includeDescendants: bool)

  datatype DirectRole = DirectRole(role: Id, system: bool)

  /** The rows one account's permissions depend on, as of one instant: time-limited rows that are not
      in force are left out of the sets. */
  datatype Grants = Grants(
    units: map<Id, Unit>, memberships: set<Id>, direct: set<DirectRole>, unitRoles: set<UnitRole>,
    adminRoles: set<Id>, links: set<(Id, Id)>)

  const MAX_DEPTH := 32

  // ----- the recursive query

  predicate Active(g: Grants, u: Id) {
    u in g.units && g.units[u].active
  }

  predicate IsParent(g: Grants, child: Id, u: Id) {
    child in g.units && g.units[child].parent == Some(u)
  }

  /** A row of the recursive table: `u` is `depth` active parents above the active unit `member`. */
  ghost predicate Ancestor(g: Grants, member: Id, u: Id, depth: nat)
    decreases depth
  {
    u in g.units && g.units[u].active && if depth == 0 then u == member else exists child :: Ancestor(g, member, child, depth - 1) && IsParent(g, child, u)
  }

  ghost predicate InTable(g: Grants, member: Id, u: Id, depth: nat) {
    member in g.memberships && depth <= 32 && Ancestor(g, member, u, depth)
  }

  ghost predicate QueryRole(g: Grants, role: Id) {
    || (exists d :: d in g.direct && d.role == role)
    || (exists r, member, depth: nat :: r in g.unitRoles && r.role == role && InTable(g, member, r.unit, depth) &&
                                   (r.unit == member || r.includeDescendants))
  }

  ghost predicate QueryPermits(g: Grants, permission: Id) {
    exists role :: (role, permission) in g.links && QueryRole(g, role) &&
                   (role !in g.adminRoles || DirectRole(role, true) in g.direct)
  }

  // ----- the levels

  function OwnUnits(g: Grants): set<Id> {
    set u | u in g.memberships && Active(g, u)
  }

  function ParentsOf(g: Grants, s: set<Id>): set<Id> {
    set u | u in s && u in g.units && g.units[u].parent.Some? :: g.units[u].parent.value
  }

  function ActiveOf(g: Grants, s: set<Id>): set<Id> {
    set u | u in s && Active(g, u)
  }

  /** All units at most `n` active parents above an own unit. */
  function Within(g: Grants, n: nat): set<Id> {
    if n == 0 then OwnUnits(g) else Within(g, n - 1) + ActiveOf(g, ParentsOf(g, Within(g, n - 1)))
  }

  lemma ParentsMember(g: Grants, s: set<Id>, u: Id)
    ensures u in ParentsOf(g, s) <==> exists child :: child in s && IsParent(g, child, u)
  {
    if u in ParentsOf(g, s) {
      var child :| child in s && child in g.units && g.units[child].parent.Some? && g.units[child].parent.value == u;
      assert IsParent(g, child, u);
    }
    if child :| child in s && IsParent(g, child, u) {
      assert g.units[child].parent.value in ParentsOf(g, s);
    }
  }

  /** `u` is in the recursive table cut at depth `n`. */
  ghost predicate TableTo(g: Grants, n: nat, u: Id) {
    exists member, depth: nat :: member in g.memberships && depth <= n && Ancestor(g, member, u, depth)
  }

  lemma {:induction false} WithinIsTable(g: Grants, n: nat, u: Id)
    ensures u in Within(g, n) <==> TableTo(g, n, u)
  {
    if n == 0 {
      assert u in OwnUnits(g) ==> Ancestor(g, u, u, 0);
    } else {
      if u in Within(g, n) && u !in Within(g, n - 1) {
        ParentsMember(g, Within(g, n - 1), u);
        var child :| child in Within(g, n - 1) && IsParent(g, child, u);
        WithinIsTable(g, n - 1, child);
        var member, depth: nat :| member in g.memberships && depth <= n - 1 && Ancestor(g, member, child, depth);
        assert Ancestor(g, member, u, depth + 1);
      } else if u in Within(g, n) {
        WithinIsTable(g, n - 1, u);
      }
      if TableTo(g, n, u) {
        var member, depth: nat :| member in g.memberships && depth <= n && Ancestor(g, member, u, depth);
        WithinIsTable(g, n - 1, u);
        if depth > 0 {
          var child :| Ancestor(g, member, child, depth - 1) && IsParent(g, child, u);
          WithinIsTable(g, n - 1, child);
          ParentsMember(g, Within(g, n - 1), u);
        } else {
          assert TableTo(g, n - 1, u);
        }
      }
    }
  }

  /** Once a level adds nothing, no later one does. */
  lemma {:induction false} WithinStops(g: Grants, d: nat, n: nat)
    requires d <= n && ActiveOf(g, ParentsOf(g, Within(g, d))) <= Within(g, d)
    ensures Within(g, n) == Within(g, d)
  {
    if d < n { WithinStops(g, d, n - 1); }
  }

  /** One level: parents already collected need not be read again, because their own parents were. */
  lemma NextLevel(g: Grants, d: nat, last: set<Id>)
    requires Within(g, d) == (if d == 0 then {} else Within(g, d - 1)) + last
    ensures Within(g, d + 1) == Within(g, d) + ActiveOf(g, ParentsOf(g, last) - Within(g, d))
  {
    forall u
      ensures u in Within(g, d + 1) <==> u in Within(g, d) || u in ActiveOf(g, ParentsOf(g, last) - Within(g, d))
    {
      ParentsMember(g, Within(g, d), u);
      ParentsMember(g, last, u);
      if d > 0 { ParentsMember(g, Within(g, d - 1), u); }
    }
  }

  /** The depth-bounded loop collects exactly the units of the recursive table. */
  method CollectUnits(g: Grants) returns (units: set<Id>)
    ensures units == Within(g, MAX_DEPTH)
  {
    units := OwnUnits(g);
    var parents := ParentsOf(g, units);
    ghost var last := units;
    var depth := 0;
    while depth < MAX_DEPTH && parents != {}
      invariant depth <= MAX_DEPTH && units == Within(g, depth) && parents == ParentsOf(g, last)
      invariant units == (if depth == 0 then {} else Within(g, depth - 1)) + last
    {
      var ids := parents - units;
      NextLevel(g, depth, last);
      if ids == {} { break; }
      var rows := ActiveOf(g, ids);
      last := rows;
      units := units + rows;
      parents := ParentsOf(g, rows);
      depth := depth + 1;
    }
    NextLevel(g, depth, last);
    if depth < MAX_DEPTH {
      assert Within(g, depth + 1) == Within(g, depth);
      WithinStops(g, depth, MAX_DEPTH);
    }
  }

  /** Roles a reader with these units sees. */
  function ReaderRoles(g: Grants, units: set<Id>): set<Id> {
    (set d | d in g.direct :: d.role)
    + set r | r in g.unitRoles && r.unit in units && (r.unit in OwnUnits(g) || r.includeDescendants) :: r.role
  }

  /** `readLockedAssignedPermissions`: the same permissions as the recursive query grants. */
  method ReadPermissions(g: Grants) returns (permissions: set<Id>)
    ensures forall p :: p in permissions <==> QueryPermits(g, p)
  {
    var units := CollectUnits(g);
    var ids := ReaderRoles(g, units);
    var allowed := set role | role in ids && (role !in g.adminRoles || DirectRole(role, true) in g.direct);
    permissions := set l | l in g.links && l.0 in allowed :: l.1;
    forall role ensures role in ids <==> QueryRole(g, role) { RolesAgree(g, units, role); }
    forall p ensures p in permissions <==> QueryPermits(g, p) {
      if p in permissions {
        var l :| l in g.links && l.0 in allowed && l.1 == p;
        assert (l.0, p) in g.links;
      }
      if QueryPermits(g, p) {
        var role :| (role, p) in g.links && QueryRole(g, role) && (role !in g.adminRoles || DirectRole(role, true) in g.direct);
        assert (role, p).0 in allowed;
      }
    }
  }

  lemma RolesAgree(g: Grants, units: set<Id>, role: Id)
    requires units == Within(g, MAX_DEPTH)
    ensures role in ReaderRoles(g, units) <==> QueryRole(g, role)
  {
    if r :| r in g.unitRoles && r.role == role && r.unit in units && (r.unit in OwnUnits(g) || r.includeDescendants) {
      WithinIsTable(g, MAX_DEPTH, r.unit);
      if r.unit in OwnUnits(g) {
        assert Ancestor(g, r.unit, r.unit, 0);
        assert InTable(g, r.unit, r.unit, 0);
      } else {
        var member, depth: nat :| member in g.memberships && depth <= MAX_DEPTH && Ancestor(g, member, r.unit, depth);
        assert InTable(g, member, r.unit, depth);
      }
    }
    if r, member, depth: nat :| r in g.unitRoles && r.role == role && InTable(g, member, r.unit, depth) && (r.unit == member || r.includeDescendants) {
      WithinIsTable(g, MAX_DEPTH, r.unit);
      assert TableTo(g, MAX_DEPTH, r.unit);
    }
  }
}
