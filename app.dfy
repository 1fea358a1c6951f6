/**
 * The application state the pages share (users, body records, goals) and the
 * operations that change it: the bulk recalculation of lib/functions.php and
 * the POST handlers of the dashboard, record edit, profile and goal pages.
 * The CSRF check is a boolean input; "now" (a timestamp) and "today" (a date)
 * are parameters.
 */
module App {
  import opened Wrappers
  import opened Messages
  import opened Metrics
  import opened Records
  import opened Goals
  import opened ProfileSettings

  /** A goals row: the stored targets and the row's timestamps. */
  datatype GoalRow = GoalRow(goal: Goal, createdAt: int, updatedAt: int)

  /** What a handler did: stopped the page, reported validation messages, or wrote its change. */
  datatype Outcome = Aborted | Rejected(errors: seq<Message>) | Accepted

  /** The number of records owned by the user. */
  function CountOwned(rs: seq<BodyRecord>, userId: nat): (n: nat)
    ensures n <= |rs|
    ensures n == 0 <==> forall i :: 0 <= i < |rs| ==> rs[i].userId != userId
  {
    if rs == [] then 0
    else CountOwned(rs[..|rs| - 1], userId) + (if rs[|rs| - 1].userId == userId then 1 else 0)
  }

  /** Every record of the user recalculated under profile p; the other records as they were. */
  function RecalcAll(rs: seq<BodyRecord>, userId: nat, p: Profile, now: int): seq<BodyRecord> {
    seq(|rs|, i requires 0 <= i < |rs| => if rs[i].userId == userId then Recalculated(rs[i], p, now) else rs[i])
  }

  /**
   * After recalculation every record of the user agrees with the profile, its
   * BMI invariant is as before, and only BMR, TDEE and the update time changed;
   * every other record is untouched.
   */
  lemma RecalcAllMakesUserConsistent(rs: seq<BodyRecord>, userId: nat, p: Profile, now: int)
    ensures |RecalcAll(rs, userId, p, now)| == |rs|
    ensures forall i :: 0 <= i < |rs| ==>
              var r' := RecalcAll(rs, userId, p, now)[i];
              && (BmiConsistent(r') <==> BmiConsistent(rs[i]))
              && r'.id == rs[i].id && r'.userId == rs[i].userId
              && (rs[i].userId == userId ==>
                    EnergyConsistent(r', p) && r'.(bmr := rs[i].bmr, tdee := rs[i].tdee, updatedAt := rs[i].updatedAt) == rs[i])
              && (rs[i].userId != userId ==> r' == rs[i])
  {
    forall i | 0 <= i < |rs| && rs[i].userId == userId
      ensures EnergyConsistent(RecalcAll(rs, userId, p, now)[i], p)
    {
      RecalculatedIsConsistent(rs[i], p, now);
    }
  }

  /** Recalculating twice under the same profile is recalculating once. */
  lemma RecalcAllIsIdempotent(rs: seq<BodyRecord>, userId: nat, p: Profile, t1: int, t2: int)
    ensures RecalcAll(RecalcAll(rs, userId, p, t1), userId, p, t2) == RecalcAll(rs, userId, p, t2)
  {
    var once := RecalcAll(rs, userId, p, t1);
    forall i | 0 <= i < |rs|
      ensures RecalcAll(once, userId, p, t2)[i] == RecalcAll(rs, userId, p, t2)[i]
    {
      if rs[i].userId == userId {
        RecalculatedIsConsistent(rs[i], p, t1);
        RecalculatingConsistentRecordTouchesOnlyTime(once[i], p, t2);
      }
    }
  }

  /** The record edit's UPDATE: the columns the form writes, and a new update time. */
  function Edited(r: BodyRecord, v: RecordFields, now: int): BodyRecord {
    r.(recordDate := v.recordDate, heightCm := v.heightCm, weightKg := v.weightKg, memo := v.memo,
       bmi := v.bmi, bmr := v.bmr, tdee := v.tdee, updatedAt := now)
  }

  /** UPDATE ... WHERE id = ? AND user_id = ?: the matching records edited, the others as they were. */
  function UpdateWhere(rs: seq<BodyRecord>, id: int, userId: nat, v: RecordFields, now: int): seq<BodyRecord> {
    seq(|rs|, i requires 0 <= i < |rs| => if rs[i].id == id && rs[i].userId == userId then Edited(rs[i], v, now) else rs[i])
  }

  /** The dashboard's INSERT. */
  function NewRecord(id: nat, userId: nat, v: RecordFields, now: int): BodyRecord {
    BodyRecord(id, userId, v.recordDate, v.heightCm, v.weightKg, v.memo, v.bmi, v.bmr, v.tdee, now, now)
  }

  predicate Owns(rs: seq<BodyRecord>, id: int, userId: nat) {
    exists i :: 0 <= i < |rs| && rs[i].id == id && rs[i].userId == userId
  }

  /** Record ids are positive, distinct and below the next id to hand out. */
  predicate IdsValid(rs: seq<BodyRecord>, nextId: nat) {
    && nextId > 0
    && (forall i :: 0 <= i < |rs| ==> 0 < rs[i].id < nextId)
    && (forall i, j :: 0 <= i < j < |rs| ==> rs[i].id != rs[j].id)
  }

  /** Every stored BMI agrees with its record, every BMR/TDEE with its owner's profile. */
  predicate AllConsistent(rs: seq<BodyRecord>, users: map<nat, Profile>) {
    forall i :: 0 <= i < |rs| ==>
      BmiConsistent(rs[i]) && (rs[i].userId in users ==> EnergyConsistent(rs[i], users[rs[i].userId]))
  }

  /** Recalculation keeps every record's id, so the id invariant. */
  lemma RecalcAllKeepsIds(rs: seq<BodyRecord>, userId: nat, p: Profile, now: int, nextId: nat)
    requires IdsValid(rs, nextId)
    ensures IdsValid(RecalcAll(rs, userId, p, now), nextId)
  {
    RecalcAllMakesUserConsistent(rs, userId, p, now);
  }

  /**
   * Writing a new profile for a user and then recalculating that user's
   * records keeps every record consistent with its owner's profile.
   */
  lemma RecalcAllRestoresConsistency(rs: seq<BodyRecord>, users: map<nat, Profile>, userId: nat, p: Profile, now: int)
    requires AllConsistent(rs, users)
    ensures AllConsistent(RecalcAll(rs, userId, p, now), users[userId := p])
  {
    RecalcAllMakesUserConsistent(rs, userId, p, now);
  }

  /** Appending a record with the next id keeps the id invariant once the next id moves on. */
  lemma AppendKeepsIds(rs: seq<BodyRecord>, nextId: nat, r: BodyRecord)
    requires IdsValid(rs, nextId) && r.id == nextId
    ensures IdsValid(rs + [r], nextId + 1)
  {
    var rs' := rs + [r];
    assert forall i :: 0 <= i < |rs| ==> rs'[i] == rs[i];
    forall i, j | 0 <= i < j < |rs'|
      ensures rs'[i].id != rs'[j].id
    {
      if j == |rs| {
        assert rs'[i] == rs[i];
      }
    }
  }

  /** Appending a record consistent with its owner's profile keeps every record consistent. */
  lemma AppendKeepsConsistency(rs: seq<BodyRecord>, users: map<nat, Profile>, r: BodyRecord)
    requires AllConsistent(rs, users)
    requires BmiConsistent(r) && r.userId in users && EnergyConsistent(r, users[r.userId])
    ensures AllConsistent(rs + [r], users)
  {
    assert forall i :: 0 <= i < |rs| ==> (rs + [r])[i] == rs[i];
  }

  class Tracker {
    var users: map<nat, Profile>
    var records: seq<BodyRecord>
    var goals: map<nat, GoalRow>
    var nextRecordId: nat

    /** Record ids are positive, distinct and below the next id to hand out. */
    ghost predicate Valid()
      reads this
    {
      IdsValid(records, nextRecordId)
    }

    /** Every stored BMI agrees with its record, every BMR/TDEE with its owner's profile. */
    ghost predicate Consistent()
      reads this
    {
      AllConsistent(records, users)
    }

    constructor (users: map<nat, Profile>)
      ensures Valid() && Consistent()
      ensures this.users == users && records == [] && goals == map[] && nextRecordId == 1
    {
      this.users := users;
      records := [];
      goals := map[];
      nextRecordId := 1;
    }

    /**
     * recalc_body_records_for_user: 0 for an unknown user; otherwise every
     * record of the user gets the BMR and TDEE its profile dictates (both NULL
     * without birth date or sex) and the new update time, and the count of
     * those records is returned. Nothing else changes.
     */
    method RecalcBodyRecordsForUser(userId: nat, now: int) returns (updated: nat)
      requires Valid()
      modifies this
      ensures Valid()
      ensures users == old(users) && goals == old(goals) && nextRecordId == old(nextRecordId)
      ensures userId !in users ==> updated == 0 && records == old(records)
      ensures userId in users ==>
                records == RecalcAll(old(records), userId, users[userId], now) &&
                updated == CountOwned(old(records), userId)
      ensures old(Consistent()) ==> Consistent()
    {
      if userId !in users {
        return 0;
      }
      var p := users[userId];
      ghost var before := records;
      ghost var target := RecalcAll(before, userId, p, now);
      updated := 0;
      if p.birthDate.Some? && Truthy(p.sex) {
        var i := 0;
        while i < |records|
          invariant 0 <= i <= |records| == |before|
          invariant forall j :: 0 <= j < i ==> records[j] == target[j]
          invariant forall j :: i <= j < |records| ==> records[j] == before[j]
          invariant updated == CountOwned(before[..i], userId)
          invariant users == old(users) && goals == old(goals) && nextRecordId == old(nextRecordId)
        {
          assert before[..i + 1][..i] == before[..i];
          var r := records[i];
          if r.userId == userId {
            var age := AgeOnDate(p.birthDate.value, r.recordDate);
            var bmr := CalcBmr(p.sex, Some(r.weightKg), Some(r.heightCm), Some(age));
            var activity := ActivityFactor(p.activityLevel);
            var tdee := CalcTdee(bmr, activity);
            assert (bmr, tdee) == EnergyMetrics(p, r.recordDate, r.weightKg, r.heightCm);
            records := records[i := r.(bmr := bmr, tdee := tdee, updatedAt := now)];
            updated := updated + 1;
          }
          i := i + 1;
        }
        assert before[..i] == before;
      } else {
        updated := CountOwned(records, userId);
        var rs := records;
        records := seq(|rs|, i requires 0 <= i < |rs| =>
          if rs[i].userId == userId then rs[i].(bmr := None, tdee := None, updatedAt := now) else rs[i]);
      }
      assert records == target;
      RecalcAllKeepsIds(before, userId, p, now, nextRecordId);
      assert users[userId := p] == users;
      if old(Consistent()) {
        RecalcAllRestoresConsistency(before, users, userId, p, now);
      }
    }

    /** The page's ownership query: the index of the record with this id and owner, if any. */
    method FindOwnedRecord(id: int, userId: nat) returns (k: Option<nat>)
      ensures k.Some? ==> k.value < |records| && records[k.value].id == id && records[k.value].userId == userId
      ensures k.None? <==> !Owns(records, id, userId)
    {
      var i := 0;
      while i < |records|
        invariant 0 <= i <= |records|
        invariant forall j :: 0 <= j < i ==> !(records[j].id == id && records[j].userId == userId)
      {
        if records[i].id == id && records[i].userId == userId {
          return Some(i);
        }
        i := i + 1;
      }
      return None;
    }

    /**
     * The dashboard's new-record POST: rejected on a bad CSRF token or any
     * validation message; otherwise one record with a new id is appended.
     */
    method AddRecord(userId: nat, csrfValid: bool, form: RecordForm, now: int) returns (o: Outcome)
      requires Valid()
      modifies this
      ensures Valid()
      ensures users == old(users) && goals == old(goals)
      ensures o.Aborted? <==> userId !in users
      ensures userId in users && !csrfValid ==> o == Rejected([InvalidCsrfToken])
      ensures userId in users && csrfValid ==>
                match DeriveRecord(users[userId], form)
                case Ok(v) =>
                  && o == Accepted
                  && records == old(records) + [NewRecord(old(nextRecordId), userId, v, now)]
                  && nextRecordId == old(nextRecordId) + 1
                case Err(errors) => o == Rejected(errors)
      ensures !o.Accepted? ==> records == old(records) && nextRecordId == old(nextRecordId)
      ensures old(Consistent()) ==> Consistent()
    {
      if userId !in users {
        return Aborted;
      }
      if !csrfValid {
        return Rejected([InvalidCsrfToken]);
      }
      var r := BuildRecord(users[userId], form);
      if r.Err? {
        return Rejected(r.error);
      }
      var added := NewRecord(nextRecordId, userId, r.value, now);
      DerivedRecordIsConsistent(users[userId], form, nextRecordId, userId, now);
      AppendKeepsIds(records, nextRecordId, added);
      if Consistent() {
        AppendKeepsConsistency(records, users, added);
      }
      records := records + [added];
      nextRecordId := nextRecordId + 1;
      o := Accepted;
    }

    /**
     * The record edit page: aborted without an id or when the record is not the
     * user's; rejected on a bad CSRF token or any validation message; otherwise
     * that one record is overwritten in place.
     */
    method EditRecord(userId: nat, recordId: int, csrfValid: bool, form: RecordForm, now: int) returns (o: Outcome)
      requires Valid()
      modifies this
      ensures Valid()
      ensures users == old(users) && goals == old(goals) && nextRecordId == old(nextRecordId)
      ensures o.Aborted? <==> userId !in users || recordId == 0 || !Owns(old(records), recordId, userId)
      ensures !o.Aborted? && !csrfValid ==> o == Rejected([InvalidCsrfToken])
      ensures !o.Aborted? && csrfValid ==>
                match DeriveRecord(users[userId], form)
                case Ok(v) => o == Accepted && records == UpdateWhere(old(records), recordId, userId, v, now)
                case Err(errors) => o == Rejected(errors)
      ensures !o.Accepted? ==> records == old(records)
      ensures old(Consistent()) ==> Consistent()
    {
      if userId !in users || recordId == 0 {
        return Aborted;
      }
      var k := FindOwnedRecord(recordId, userId);
      if k.None? {
        return Aborted;
      }
      if !csrfValid {
        return Rejected([InvalidCsrfToken]);
      }
      var r := BuildRecord(users[userId], form);
      if r.Err? {
        return Rejected(r.error);
      }
      ghost var before := records;
      var i := k.value;
      records := records[i := Edited(records[i], r.value, now)];
      forall j | 0 <= j < |records|
        ensures records[j] == UpdateWhere(before, recordId, userId, r.value, now)[j]
      {
        if j != i {
          assert before[j].id != before[i].id by {
            if j < i { assert before[j].id != before[i].id; } else { assert before[i].id != before[j].id; }
          }
        }
      }
      o := Accepted;
    }

    /**
     * The profile POST: rejected on a bad CSRF token or an unknown sex or
     * activity level, changing nothing; otherwise the profile is overwritten and
     * all of the user's records are recalculated, their count reported.
     */
    method UpdateProfile(userId: nat, csrfValid: bool, form: ProfileForm, now: int) returns (o: Outcome, updated: nat)
      requires Valid()
      modifies this
      ensures Valid()
      ensures goals == old(goals) && nextRecordId == old(nextRecordId)
      ensures o.Aborted? <==> userId !in old(users)
      ensures userId in old(users) && !csrfValid ==> o == Rejected([InvalidCsrfToken])
      ensures userId in old(users) && csrfValid ==>
                var p := NormalisedProfile(form);
                var errors := ProfileErrors(p);
                if errors == [] then
                  && o == Accepted
                  && users == old(users)[userId := p]
                  && records == RecalcAll(old(records), userId, p, now)
                  && updated == CountOwned(old(records), userId)
                else o == Rejected(errors)
      ensures !o.Accepted? ==> users == old(users) && records == old(records) && updated == 0
      ensures old(Consistent()) ==> Consistent()
    {
      updated := 0;
      if userId !in users {
        return Aborted, 0;
      }
      if !csrfValid {
        return Rejected([InvalidCsrfToken]), 0;
      }
      var p := NormalisedProfile(form);
      var errors := ProfileErrors(p);
      if errors != [] {
        return Rejected(errors), 0;
      }
      ghost var before := records;
      ghost var usersBefore := users;
      users := users[userId := p];
      updated := RecalcBodyRecordsForUser(userId, now);
      if old(Consistent()) {
        RecalcAllRestoresConsistency(before, usersBefore, userId, p, now);
      }
      o := Accepted;
    }

    /**
     * The goal POST: rejected on a bad CSRF token or any range message, aborted
     * when the solver crashes, changing nothing; otherwise the user's single
     * goals row is updated (keeping its creation time) or inserted.
     */
    method SaveGoal(userId: nat, csrfValid: bool, selector: string, posted: Goal, today: Date, now: int)
      returns (o: Outcome)
      modifies this
      ensures users == old(users) && records == old(records) && nextRecordId == old(nextRecordId)
      ensures userId !in users ==> o == Aborted
      ensures userId in users && !csrfValid ==> o == Rejected([InvalidCsrfToken])
      ensures userId in users && csrfValid ==>
                match SolveGoal(users[userId], today, selector, posted)
                case Solved(g) =>
                  && o == Accepted
                  && goals == old(goals)[userId := GoalRow(g, if userId in old(goals) then old(goals)[userId].createdAt else now, now)]
                case Invalid(errors) => o == Rejected(errors)
                case Crashed => o == Aborted
      ensures !o.Accepted? ==> goals == old(goals)
    {
      if userId !in users {
        return Aborted;
      }
      if !csrfValid {
        return Rejected([InvalidCsrfToken]);
      }
      var s := SolveGoalSteps(users[userId], today, selector, posted);
      match s
      case Crashed =>
        return Aborted;
      case Invalid(errors) =>
        return Rejected(errors);
      case Solved(g) =>
        SolvedGoalIsStoredUnchanged(users[userId], today, selector, posted);
        var stored := GoalColumns(g);
        if userId in goals {
          goals := goals[userId := GoalRow(stored, goals[userId].createdAt, now)];
        } else {
          goals := goals[userId := GoalRow(stored, now, now)];
        }
        o := Accepted;
    }
  }
}
