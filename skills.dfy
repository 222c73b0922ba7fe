/** The skills routes (server/routes/skills.js): every user's skills in one
    list, adding a skill to the caller's profile (no two names equal ignoring
    case), and removing one by id. */
module Skills {
  import opened Base
  import opened JsStrings
  import opened Seqs
  import opened Store

  const Levels: set<string> := {"beginner", "intermediate", "advanced"}

  datatype SkillsOutcome = SkillsOutcome(tables: Tables, status: int, skills: seq<Skill>)

  // ------------------------------------------------------------------ GET /

  /** The `reduce` over the users: their skill lists one after another. */
  function AllSkills(us: seq<User>): (r: seq<Skill>)
    ensures |us| > 0 ==> r == us[0].skills + AllSkills(us[1..])
    decreases |us|
  {
    if us == [] then [] else us[0].skills + AllSkills(us[1..])
  }

  /** Every skill of every user is in the list, and nothing else. */
  lemma {:induction false} AllSkillsMembers(us: seq<User>, s: Skill)
    ensures s in AllSkills(us) <==> exists i :: 0 <= i < |us| && s in us[i].skills
  {
    if us != [] {
      AllSkillsMembers(us[1..], s);
      if s in AllSkills(us[1..]) {
        var i :| 0 <= i < |us[1..]| && s in us[1..][i].skills;
        assert us[i + 1] == us[1..][i];
      }
      if exists i :: 0 <= i < |us| && s in us[i].skills {
        var i :| 0 <= i < |us| && s in us[i].skills;
        if i > 0 { assert us[1..][i - 1] == us[i]; }
      }
    }
  }

  // ---------------------------------------------------------------- POST /

  /** No two skills have names equal ignoring case. */
  predicate DistinctNames(skills: seq<Skill>) {
    forall i, j :: 0 <= i < j < |skills| ==> !EqualsIgnoreCase(skills[i].name, skills[j].name)
  }

  /** `user.skills.some(s => s.name.toLowerCase() === name.toLowerCase())`. */
  predicate NameTaken(skills: seq<Skill>, name: string) {
    exists i :: 0 <= i < |skills| && EqualsIgnoreCase(skills[i].name, name)
  }

  /** What adding a skill does. The name is trimmed by the validator's sanitizer
      before anything reads it; a missing user makes the handler throw (500). */
  function AddSkillSpec(t: Tables, caller: Id, name: string, level: string, skillId: Id): (r: SkillsOutcome)
    ensures r.status == 200 || r.status == 400 || r.status == 500
    ensures Trim(name) == "" || level !in Levels ==> r.status == 400
    ensures r.status != 200 ==> r.tables == t && r.skills == []
    ensures r.status == 500 <==> Trim(name) != "" && level in Levels && UserIndex(t.users, caller).None?
    ensures r.status == 200 ==>
      var i := UserIndex(t.users, caller).value;
      && !NameTaken(t.users[i].skills, Trim(name))
      && r.skills == t.users[i].skills + [Skill(skillId, Trim(name), level)]
      && r.tables == t.(users := t.users[i := t.users[i].(skills := r.skills)])
    ensures UserIndex(t.users, caller).Some? && Trim(name) != "" && level in Levels ==>
      (r.status == 400 <==> NameTaken(t.users[UserIndex(t.users, caller).value].skills, Trim(name)))
    ensures ValidTables(t) ==> ValidTables(r.tables)
  {
    var n := Trim(name);
    if n == "" || level !in Levels then SkillsOutcome(t, 400, [])
    else
      match UserIndex(t.users, caller)
      case None => SkillsOutcome(t, 500, [])
      case Some(i) =>
        var u := t.users[i];
        if NameTaken(u.skills, n) then SkillsOutcome(t, 400, [])
        else
          var skills := u.skills + [Skill(skillId, n, level)];
          assert ValidTables(t) ==> ValidTables(t.(users := t.users[i := u.(skills := skills)])) by {
            if ValidTables(t) {
              ReplaceUserValid(t, i, u.(skills := skills));
            }
          }
          SkillsOutcome(t.(users := t.users[i := u.(skills := skills)]), 200, skills)
  }

  /** Adding a skill keeps the names distinct ignoring case. */
  lemma AddSkillKeepsDistinct(t: Tables, caller: Id, name: string, level: string, skillId: Id)
    requires UserIndex(t.users, caller).Some?
    requires DistinctNames(t.users[UserIndex(t.users, caller).value].skills)
    ensures DistinctNames(AddSkillSpec(t, caller, name, level, skillId).skills)
  {
    var r := AddSkillSpec(t, caller, name, level, skillId);
    if r.status == 200 {
      var old_ := t.users[UserIndex(t.users, caller).value].skills;
      forall i, j | 0 <= i < j < |r.skills|
        ensures !EqualsIgnoreCase(r.skills[i].name, r.skills[j].name)
      {
        if j == |old_| {
          assert r.skills[i] == old_[i];
          EqualsIgnoreCaseEquivalence(old_[i].name, Trim(name), Trim(name));
        } else {
          assert r.skills[i] == old_[i] && r.skills[j] == old_[j];
        }
      }
    }
  }

  /** Adding a name a second time, in any mix of case and with any surrounding
      whitespace, is refused. */
  lemma AddSkillTwice(t: Tables, caller: Id, name: string, name2: string, level: string, id1: Id, id2: Id)
    requires AddSkillSpec(t, caller, name, level, id1).status == 200
    requires EqualsIgnoreCase(name2, name)
    ensures var t1 := AddSkillSpec(t, caller, name, level, id1).tables;
            AddSkillSpec(t1, caller, name2, level, id2).status == 400
  {
    var r := AddSkillSpec(t, caller, name, level, id1);
    var i := UserIndex(t.users, caller).value;
    SameUserIndex(t.users, i, r.tables.users[i]);
    var skills := r.skills;
    assert skills[|skills| - 1].name == Trim(name);
    TrimIgnoreCase(name2, name);
    EqualsIgnoreCaseEquivalence(Trim(name), Trim(name2), Trim(name2));
    assert NameTaken(skills, Trim(name2));
  }

  /** Replacing a user by one with the same id keeps it findable at the same place. */
  lemma SameUserIndex(us: seq<User>, i: nat, u: User)
    requires i < |us| && UserIndex(us, u.id) == Some(i)
    ensures UserIndex(us[i := u], u.id) == Some(i)
  {
    var vs := us[i := u];
    forall k | 0 <= k < i ensures vs[k].id != u.id {
      assert vs[k] == us[k];
    }
    UserIndexAt(vs, u.id, i);
  }

  /** Strings equal ignoring case have equal trims ignoring case: lower-casing
      changes no whitespace character. */
  lemma TrimIgnoreCase(a: string, b: string)
    requires EqualsIgnoreCase(a, b)
    ensures EqualsIgnoreCase(Trim(a), Trim(b))
  {
    TrimLower(a);
    TrimLower(b);
  }

  /** Trimming commutes with lower-casing. */
  lemma {:induction false} TrimLower(s: string)
    ensures Lower(Trim(s)) == Trim(Lower(s))
  {
    TrimStartLower(s);
    TrimEndLower(TrimStart(s));
  }

  lemma {:induction false} TrimStartLower(s: string)
    ensures Lower(TrimStart(s)) == TrimStart(Lower(s))
  {
    if s != [] {
      assert Lower(s)[0] == LowerChar(s[0]);
      assert IsJsWhitespace(s[0]) <==> IsJsWhitespace(LowerChar(s[0]));
      if IsJsWhitespace(s[0]) {
        assert Lower(s)[1..] == Lower(s[1..]);
        TrimStartLower(s[1..]);
      }
    }
  }

  lemma {:induction false} TrimEndLower(s: string)
    ensures Lower(TrimEnd(s)) == TrimEnd(Lower(s))
  {
    if s != [] {
      var n := |s| - 1;
      assert Lower(s)[n] == LowerChar(s[n]);
      assert IsJsWhitespace(s[n]) <==> IsJsWhitespace(LowerChar(s[n]));
      if IsJsWhitespace(s[n]) {
        assert Lower(s)[..n] == Lower(s[..n]);
        TrimEndLower(s[..n]);
      }
    }
  }

  method AddSkill(db: Database, caller: Id, name: string, level: string, skillId: Id)
    returns (status: int, skills: seq<Skill>)
    requires db.Valid()
    modifies db
    ensures db.Valid()
    ensures SkillsOutcome(db.Snapshot(), status, skills) == AddSkillSpec(old(db.Snapshot()), caller, name, level, skillId)
  {
    var n := Trim(name);
    if n == "" || level !in Levels {
      return 400, [];
    }
    var found := UserIndex(db.users, caller);
    if found.None? {
      return 500, [];
    }
    var i := found.value;
    var u := db.users[i];
    if NameTaken(u.skills, n) {
      return 400, [];
    }
    skills := u.skills + [Skill(skillId, n, level)];
    db.users := db.users[i := u.(skills := skills)];
    return 200, skills;
  }

  // ------------------------------------------------------ DELETE /:skillId

  /** `user.skills.filter(s => s._id !== skillId)`: every skill with that id
      goes, the rest stay in order; a missing user makes the handler throw. */
  function DeleteSkillSpec(t: Tables, caller: Id, skillId: Id): (r: SkillsOutcome)
    ensures r.status == 200 || r.status == 500
    ensures r.status == 500 <==> UserIndex(t.users, caller).None?
    ensures r.status == 500 ==> r.tables == t
    ensures r.status == 200 ==>
      var i := UserIndex(t.users, caller).value;
      && IsSubseq(r.skills, t.users[i].skills)
      && (forall k :: 0 <= k < |r.skills| ==> r.skills[k].id != skillId)
      && (forall k :: 0 <= k < |t.users[i].skills| && t.users[i].skills[k].id != skillId ==>
            t.users[i].skills[k] in r.skills)
      && |r.skills| == Count(t.users[i].skills, (s: Skill) => s.id != skillId)
      && r.tables == t.(users := t.users[i := t.users[i].(skills := r.skills)])
    ensures ValidTables(t) ==> ValidTables(r.tables)
  {
    match UserIndex(t.users, caller)
    case None => SkillsOutcome(t, 500, [])
    case Some(i) =>
      var skills := Filter(t.users[i].skills, (s: Skill) => s.id != skillId);
      FilterIsSubseq(t.users[i].skills, (s: Skill) => s.id != skillId);
      FilterCount(t.users[i].skills, (s: Skill) => s.id != skillId);
      SkillsOutcome(t.(users := t.users[i := t.users[i].(skills := skills)]), 200, skills)
  }

  /** Deleting an id no skill has leaves the list as it was. */
  lemma {:induction false} FilterNoneRemoved(skills: seq<Skill>, skillId: Id)
    requires forall k :: 0 <= k < |skills| ==> skills[k].id != skillId
    ensures Filter(skills, (s: Skill) => s.id != skillId) == skills
  {
    if skills != [] {
      FilterNoneRemoved(skills[1..], skillId);
    }
  }

  method DeleteSkill(db: Database, caller: Id, skillId: Id) returns (status: int, skills: seq<Skill>)
    requires db.Valid()
    modifies db
    ensures db.Valid()
    ensures SkillsOutcome(db.Snapshot(), status, skills) == DeleteSkillSpec(old(db.Snapshot()), caller, skillId)
  {
    var found := UserIndex(db.users, caller);
    if found.None? {
      return 500, [];
    }
    var i := found.value;
    skills := Filter(db.users[i].skills, (s: Skill) => s.id != skillId);
    db.users := db.users[i := db.users[i].(skills := skills)];
    return 200, skills;
  }
}
