/**
 * The consistency checks that run before a write: natural-key uniqueness
 * for users (username, email) and for role and permission codes, and the
 * code check of `updateRole`/`updatePermission`, both as written and as
 * evidently intended.
 */
module Guards {
  import opened Entities

  /** No two records carry the same code. */
  predicate UniqueCodes(codes: map<Id, Code>)
  {
    forall a, b :: a in codes && b in codes && a != b ==> codes[a] != codes[b]
  }

  /**
   * No two records carry the same non-empty code: what the service keeps,
   * since its update check lets any number of records take the code "".
   */
  predicate UniqueNonEmptyCodes(codes: map<Id, Code>)
  {
    forall a, b :: a in codes && b in codes && a != b && codes[a] != "" ==> codes[a] != codes[b]
  }

  function RoleCodeMap(roles: map<Id, Role>): map<Id, Code>
  {
    map id | id in roles :: roles[id].code
  }

  function PermissionCodeMap(perms: map<Id, Permission>): map<Id, Code>
  {
    map id | id in perms :: perms[id].code
  }

  /** `findOne({ where: { code } })` finds a row. */
  predicate CodeTaken(codes: map<Id, Code>, code: Code)
  {
    exists id :: id in codes && codes[id] == code
  }

  /** `findOne({ where: [{ username }, { email }] })` finds a row: either key alone collides. */
  predicate IdentityTaken(users: map<Id, User>, username: string, email: string)
  {
    exists id :: id in users && (users[id].username == username || users[id].email == email)
  }

  /** A create that passed the code check keeps non-empty codes unique. */
  lemma CreateKeepsNonEmptyUnique(codes: map<Id, Code>, id: Id, code: Code)
    requires UniqueNonEmptyCodes(codes) && id !in codes && !CodeTaken(codes, code)
    ensures UniqueNonEmptyCodes(codes[id := code])
  {
    var after := codes[id := code];
    forall a, b | a in after && b in after && a != b && after[a] != ""
      ensures after[a] != after[b]
    {
      if a == id {
        assert codes[b] != code;
      } else if b == id {
        assert codes[a] != code;
      }
    }
  }

  /** A create that passed the code check keeps codes unique. */
  lemma CreateKeepsUnique(codes: map<Id, Code>, id: Id, code: Code)
    requires UniqueCodes(codes) && id !in codes && !CodeTaken(codes, code)
    ensures UniqueCodes(codes[id := code])
  {
    var after := codes[id := code];
    forall a, b | a in after && b in after && a != b
      ensures after[a] != after[b]
    {
      if a == id {
        assert codes[b] != code;
      } else if b == id {
        assert codes[a] != code;
      }
    }
  }

  // ---------------------------------------------------------------------
  // The code check of updateRole / updatePermission
  // (src/auth/auth.service.ts:331, 406).
  // ---------------------------------------------------------------------

  /**
   * As written: `updateData.code && updateData.code !== current`.  The
   * empty string is falsy, so an update to the code "" is never checked,
   * although `Object.assign` still writes it.
   */
  predicate ChecksCodeAsWritten(newCode: Option<Code>, current: Code)
  {
    newCode.Some? && newCode.value != "" && newCode.value != current
  }

  /** As intended: every supplied code that differs from the current one is checked. */
  predicate ChecksCode(newCode: Option<Code>, current: Code)
  {
    newCode.Some? && newCode.value != current
  }

  predicate UpdateConflictsAsWritten(codes: map<Id, Code>, id: Id, newCode: Option<Code>)
    requires id in codes
  {
    ChecksCodeAsWritten(newCode, codes[id]) && CodeTaken(codes, newCode.value)
  }

  /** The update is refused exactly when it would move the record onto another record's code. */
  predicate UpdateConflicts(codes: map<Id, Code>, id: Id, newCode: Option<Code>)
    requires id in codes
  {
    ChecksCode(newCode, codes[id]) && CodeTaken(codes, newCode.value)
  }

  /** With the intended check, an update that is not refused keeps codes unique. */
  lemma UpdateKeepsUnique(codes: map<Id, Code>, id: Id, newCode: Option<Code>)
    requires id in codes && UniqueCodes(codes) && !UpdateConflicts(codes, id, newCode)
    ensures UniqueCodes(codes[id := Overwrite(codes[id], newCode)])
  {
    var c := Overwrite(codes[id], newCode);
    if c == codes[id] {
      assert codes[id := c] == codes;
    } else {
      CreateKeepsUnique(codes - {id}, id, c);
      assert codes[id := c] == (codes - {id})[id := c];
    }
  }

  /**
   * The check as written still keeps non-empty codes unique: the only
   * unchecked renames are to the current code and to "".
   */
  lemma {:induction false} UpdateAsWrittenKeepsNonEmptyUnique(codes: map<Id, Code>, id: Id, newCode: Option<Code>)
    requires id in codes && UniqueNonEmptyCodes(codes) && !UpdateConflictsAsWritten(codes, id, newCode)
    ensures UniqueNonEmptyCodes(codes[id := Overwrite(codes[id], newCode)])
  {
    var c := Overwrite(codes[id], newCode);
    var after := codes[id := c];
    if c != codes[id] && c != "" {
      assert !CodeTaken(codes, c);
    }
    forall a, b | a in after && b in after && a != b && after[a] != ""
      ensures after[a] != after[b]
    {
      if a == id {
        assert codes[b] != c;
      } else if b == id {
        assert codes[a] != c;
      }
    }
  }

  /**
   * The check as written lets a second record take the code "": with one
   * role already holding "", renaming another role to "" is not refused and
   * leaves two roles with the same code.  The intended check refuses it.
   */
  lemma EmptyCodeSlipsThrough()
    ensures var codes := map[0 := "", 1 := "admin"];
      && UniqueCodes(codes)
      && !UpdateConflictsAsWritten(codes, 1, Some(""))
      && !UniqueCodes(codes[1 := Overwrite(codes[1], Some(""))])
      && UpdateConflicts(codes, 1, Some(""))
  {
    var codes := map[0 := "", 1 := "admin"];
    assert codes[0] == "";
    var after := codes[1 := Overwrite(codes[1], Some(""))];
    assert after[0] == after[1];
  }
}
