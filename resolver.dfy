/**
 * Permission resolution: flatten a user's roles, in order, into the codes
 * of the permissions they grant, keeping each code once at its first
 * occurrence (the `reduce`/`forEach`/`includes`/`push` accumulator), and
 * the nested `some` test that `hasPermission` uses.
 */
module Resolver {
  import opened Entities
  import opened EdgeLists

  /** Codes of the permissions `pids` name, in order, repeats kept; an id without a record contributes nothing. */
  function CodesOf(perms: map<Id, Permission>, pids: seq<Id>): seq<Code>
  {
    if pids == [] then []
    else
      var p := pids[|pids| - 1];
      CodesOf(perms, pids[..|pids| - 1]) + (if p in perms then [perms[p].code] else [])
  }

  /** Codes granted by the roles `rids`, role by role and within a role permission by permission. */
  function GrantedCodes(roles: map<Id, Role>, perms: map<Id, Permission>, rids: seq<Id>): seq<Code>
  {
    if rids == [] then []
    else
      var r := rids[|rids| - 1];
      GrantedCodes(roles, perms, rids[..|rids| - 1]) + (if r in roles then CodesOf(perms, roles[r].permissions) else [])
  }

  /** The permission codes of a user holding `rids`: deduplicated, first-seen order. */
  function Resolve(roles: map<Id, Role>, perms: map<Id, Permission>, rids: seq<Id>): seq<Code>
  {
    Dedup(GrantedCodes(roles, perms, rids))
  }

  lemma CodesOfStep(perms: map<Id, Permission>, pids: seq<Id>, j: nat)
    requires j < |pids|
    ensures CodesOf(perms, pids[..j + 1])
      == CodesOf(perms, pids[..j]) + (if pids[j] in perms then [perms[pids[j]].code] else [])
  {
    assert pids[..j + 1][..j] == pids[..j];
  }

  lemma GrantedCodesStep(roles: map<Id, Role>, perms: map<Id, Permission>, rids: seq<Id>, i: nat)
    requires i < |rids|
    ensures GrantedCodes(roles, perms, rids[..i + 1])
      == GrantedCodes(roles, perms, rids[..i]) + (if rids[i] in roles then CodesOf(perms, roles[rids[i]].permissions) else [])
  {
    assert rids[..i + 1][..i] == rids[..i];
  }

  /** `role.permissions.some(p => p.code === code)` */
  predicate RoleGrants(roles: map<Id, Role>, perms: map<Id, Permission>, rid: Id, code: Code)
  {
    rid in roles &&
    exists j :: 0 <= j < |roles[rid].permissions| && GrantsAt(perms, roles[rid].permissions, j, code)
  }

  predicate GrantsAt(perms: map<Id, Permission>, pids: seq<Id>, j: int, code: Code)
    requires 0 <= j < |pids|
  {
    pids[j] in perms && perms[pids[j]].code == code
  }

  /** `user.roles.some(role => role.permissions.some(p => p.code === code))` */
  predicate Grants(roles: map<Id, Role>, perms: map<Id, Permission>, rids: seq<Id>, code: Code)
  {
    exists i :: 0 <= i < |rids| && RoleGrants(roles, perms, rids[i], code)
  }

  lemma {:induction false} CodesOfMembers(perms: map<Id, Permission>, pids: seq<Id>, code: Code)
    ensures code in CodesOf(perms, pids) <==> exists j :: 0 <= j < |pids| && GrantsAt(perms, pids, j, code)
  {
    if pids != [] {
      var n := |pids| - 1;
      var q := pids[..n];
      CodesOfMembers(perms, q, code);
      var tail := if pids[n] in perms then [perms[pids[n]].code] else [];
      assert CodesOf(perms, pids) == CodesOf(perms, q) + tail;
      if code in CodesOf(perms, q) {
        var j :| 0 <= j < |q| && GrantsAt(perms, q, j, code);
        assert q[j] == pids[j];
        assert GrantsAt(perms, pids, j, code);
      }
      if code in tail {
        assert GrantsAt(perms, pids, n, code);
      }
      if exists j :: 0 <= j < |pids| && GrantsAt(perms, pids, j, code) {
        var j :| 0 <= j < |pids| && GrantsAt(perms, pids, j, code);
        if j < n {
          assert q[j] == pids[j];
          assert GrantsAt(perms, q, j, code);
        } else {
          assert code in tail;
        }
      }
    }
  }

  lemma {:induction false} GrantedCodesMembers(roles: map<Id, Role>, perms: map<Id, Permission>, rids: seq<Id>, code: Code)
    ensures code in GrantedCodes(roles, perms, rids) <==> Grants(roles, perms, rids, code)
  {
    if rids != [] {
      var n := |rids| - 1;
      var q := rids[..n];
      GrantedCodesMembers(roles, perms, q, code);
      if rids[n] in roles {
        CodesOfMembers(perms, roles[rids[n]].permissions, code);
      }
      if Grants(roles, perms, q, code) {
        var i :| 0 <= i < |q| && RoleGrants(roles, perms, q[i], code);
        assert rids[i] == q[i];
      }
      if Grants(roles, perms, rids, code) {
        var i :| 0 <= i < |rids| && RoleGrants(roles, perms, rids[i], code);
        if i < n {
          assert q[i] == rids[i];
        }
      }
    }
  }

  /** `hasPermission(u, c)` holds exactly when `c` is among the resolved permissions of `u`. */
  lemma ResolveIffGrants(roles: map<Id, Role>, perms: map<Id, Permission>, rids: seq<Id>, code: Code)
    ensures code in Resolve(roles, perms, rids) <==> Grants(roles, perms, rids, code)
  {
    DedupMembers(GrantedCodes(roles, perms, rids));
    GrantedCodesMembers(roles, perms, rids, code);
  }

  /** The resolved list never holds a code twice. */
  lemma ResolveNoDup(roles: map<Id, Role>, perms: map<Id, Permission>, rids: seq<Id>)
    ensures NoDup(Resolve(roles, perms, rids))
  {
    DedupNoDup(GrantedCodes(roles, perms, rids));
  }

  /** Codes appear in the order of their first grant when roles, then their permissions, are scanned in order. */
  lemma ResolveFirstSeen(roles: map<Id, Role>, perms: map<Id, Permission>, rids: seq<Id>)
    ensures var g, r := GrantedCodes(roles, perms, rids), Resolve(roles, perms, rids);
      (forall c :: c in r ==> c in g) &&
      forall i, j :: 0 <= i < j < |r| ==> FirstIndex(g, r[i]) < FirstIndex(g, r[j])
  {
    DedupFirstSeen(GrantedCodes(roles, perms, rids));
  }

  /** Taking one more role appends that role's not-yet-seen codes; earlier codes keep their places. */
  lemma {:induction false} ResolveExtends(roles: map<Id, Role>, perms: map<Id, Permission>, rids: seq<Id>, r: Id)
    ensures Resolve(roles, perms, rids) <= Resolve(roles, perms, rids + [r])
  {
    var g := GrantedCodes(roles, perms, rids);
    assert (rids + [r])[..|rids|] == rids;
    var extra := if r in roles then CodesOf(perms, roles[r].permissions) else [];
    assert GrantedCodes(roles, perms, rids + [r]) == g + extra;
    DedupPrefix(g, extra);
  }

  lemma {:induction false} DedupPrefix<T>(a: seq<T>, b: seq<T>)
    ensures Dedup(a) <= Dedup(a + b)
  {
    if b != [] {
      var n := |b| - 1;
      DedupPrefix(a, b[..n]);
      assert a + b == (a + b[..n]) + [b[n]];
      assert (a + b)[..|a + b| - 1] == a + b[..n];
    } else {
      assert a + b == a;
    }
  }

  /** The deduplication of the concrete scan in the example below. */
  lemma DedupRepeatedMiddle<T>(a: T, b: T, c: T)
    requires a != b && b != c && a != c
    ensures Dedup([a, b, b, c]) == [a, b, c]
  {
    DedupStep([], a);
    assert [] + [a] == [a];
    DedupStep([a], b);
    assert [a] + [b] == [a, b];
    DedupStep([a, b], b);
    assert [a, b] + [b] == [a, b, b];
    DedupStep([a, b, b], c);
    assert [a, b, b] + [c] == [a, b, b, c];
  }

  /**
   * A user holding R1 then R2, where R1 grants read and write and R2 grants
   * write and delete, resolves to read, write, delete.
   */
  lemma TwoRolesExample()
    ensures var perms := map[10 := Permission("p.read", "Read", None, None),
                             11 := Permission("p.write", "Write", None, None),
                             12 := Permission("p.delete", "Delete", None, None)];
            var roles := map[1 := Role("r1", "R1", None, false, [10, 11]),
                             2 := Role("r2", "R2", None, false, [11, 12])];
            Resolve(roles, perms, [1, 2]) == ["p.read", "p.write", "p.delete"]
  {
    var perms := map[10 := Permission("p.read", "Read", None, None),
                     11 := Permission("p.write", "Write", None, None),
                     12 := Permission("p.delete", "Delete", None, None)];
    var roles := map[1 := Role("r1", "R1", None, false, [10, 11]),
                     2 := Role("r2", "R2", None, false, [11, 12])];
    var read, write, delete := "p.read", "p.write", "p.delete";
    assert read != write && write != delete && read != delete by {
      assert read[2] != write[2] && write[2] != delete[2] && read[2] != delete[2];
    }
    CodesOfStep(perms, [10, 11], 0);
    CodesOfStep(perms, [10, 11], 1);
    assert [10, 11][..0] == [] && [10, 11][..2] == [10, 11];
    assert CodesOf(perms, [10, 11]) == [read, write];
    CodesOfStep(perms, [11, 12], 0);
    CodesOfStep(perms, [11, 12], 1);
    assert [11, 12][..0] == [] && [11, 12][..2] == [11, 12];
    assert CodesOf(perms, [11, 12]) == [write, delete];
    GrantedCodesStep(roles, perms, [1, 2], 0);
    GrantedCodesStep(roles, perms, [1, 2], 1);
    assert [1, 2][..0] == [] && [1, 2][..2] == [1, 2];
    assert GrantedCodes(roles, perms, [1, 2]) == [read, write, write, delete];
    DedupRepeatedMiddle(read, write, delete);
  }
}
