/**
 * The user model: the training requirements of a lab with the user's
 * standing against each, the partial profile update, and the upsert of a
 * completed training.
 */
module Users {
  import opened Wrappers
  import opened Js
  import opened Seqs
  import opened Sql

  // ----- lab requirements -----

  /** A training a lab requires (`lab_training_requirements` joined with the catalogue). */
  datatype Requirement = Requirement(trainingId: int, code: string, name: string)

  /** A training the user holds (`user_trainings`); absent dates are `None`. */
  datatype Training = Training(trainingId: int, completedAt: Option<int>, expiresAt: Option<int>)

  /** One enriched requirement of the answer. */
  datatype Item = Item(trainingId: int, code: string, name: string, required: bool, have: bool, valid: bool,
                       completedAt: Option<int>, expiresAt: Option<int>)

  datatype Eligibility = Eligibility(labId: int, userId: int, eligible: bool, items: seq<Item>)

  /** `j` is the last record of its training: no later record has the same id. */
  predicate Latest(mine: seq<Training>, j: int) {
    0 <= j < |mine| && forall l :: j < l < |mine| ==> mine[l].trainingId != mine[j].trainingId
  }

  /**
   * `new Map(mine.map(r => [r.training_id, r]))`: every held training is a
   * key, and a training held twice keeps its last record, as a `Map` built
   * from entries does.
   */
  function MineMap(mine: seq<Training>): map<int, Training>
    decreases |mine|
  {
    if |mine| == 0 then map[]
    else MineMap(mine[..|mine| - 1])[mine[|mine| - 1].trainingId := mine[|mine| - 1]]
  }

  /** The keys are the held trainings, each mapped to its last record. */
  lemma MineMapLatest(mine: seq<Training>)
    ensures forall k :: k in MineMap(mine) <==> exists j :: 0 <= j < |mine| && mine[j].trainingId == k
    ensures forall j :: Latest(mine, j) ==> mine[j].trainingId in MineMap(mine) && MineMap(mine)[mine[j].trainingId] == mine[j]
  {
    MineMapKeys(mine);
    MineMapLast(mine);
  }

  lemma {:induction false} MineMapKeys(mine: seq<Training>)
    ensures forall k :: k in MineMap(mine) <==> exists j :: 0 <= j < |mine| && mine[j].trainingId == k
    decreases |mine|
  {
    if |mine| > 0 {
      var init := mine[..|mine| - 1];
      MineMapKeys(init);
      forall k ensures k in MineMap(mine) <==> exists j :: 0 <= j < |mine| && mine[j].trainingId == k {
        if k in MineMap(init) {
          var j :| 0 <= j < |init| && init[j].trainingId == k;
          assert mine[j] == init[j];
        }
        if exists j :: 0 <= j < |mine| && mine[j].trainingId == k {
          var j :| 0 <= j < |mine| && mine[j].trainingId == k;
          if j < |init| {
            assert init[j] == mine[j];
          }
        }
      }
    }
  }

  lemma {:induction false} MineMapLast(mine: seq<Training>)
    ensures forall j :: Latest(mine, j) ==> mine[j].trainingId in MineMap(mine) && MineMap(mine)[mine[j].trainingId] == mine[j]
    decreases |mine|
  {
    if |mine| > 0 {
      var init := mine[..|mine| - 1];
      MineMapLast(init);
      forall j | Latest(mine, j)
        ensures mine[j].trainingId in MineMap(mine) && MineMap(mine)[mine[j].trainingId] == mine[j]
      {
        if j < |init| {
          assert init[j] == mine[j];
          assert Latest(init, j);
        }
      }
    }
  }

  /** `!!have && (!have.expires_at || new Date(have.expires_at) > new Date())`. */
  predicate ValidAt(have: Option<Training>, now: int) {
    have.Some? && (have.value.expiresAt.None? || have.value.expiresAt.value > now)
  }

  function Lookup(m: map<int, Training>, k: int): Option<Training> {
    if k in m then Some(m[k]) else None
  }

  /** The enriched item of one requirement; the dates are `have?.x || null`. */
  function Enrich(r: Requirement, mine: map<int, Training>, now: int): Item {
    var have := Lookup(mine, r.trainingId);
    Item(r.trainingId, r.code, r.name, true, have.Some?, ValidAt(have, now),
         if have.Some? then have.value.completedAt else None,
         if have.Some? then have.value.expiresAt else None)
  }

  /**
   * `labRequirements`: one item per requirement, in requirement order,
   * saying whether the user holds the training and whether it is still
   * valid; the user is eligible when every item is valid.
   */
  function LabRequirements(labId: int, userId: int, reqs: seq<Requirement>, mine: seq<Training>, now: int)
    : (e: Eligibility)
    ensures e.labId == labId && e.userId == userId
    ensures |e.items| == |reqs|
    ensures forall i :: 0 <= i < |reqs| ==>
      e.items[i].trainingId == reqs[i].trainingId && e.items[i].code == reqs[i].code
      && e.items[i].name == reqs[i].name && e.items[i].required
    ensures forall i :: 0 <= i < |reqs| ==>
      (e.items[i].have <==> exists j :: 0 <= j < |mine| && mine[j].trainingId == reqs[i].trainingId)
    ensures forall i :: 0 <= i < |reqs| && !e.items[i].have ==>
      !e.items[i].valid && e.items[i].completedAt.None? && e.items[i].expiresAt.None?
    ensures e.eligible <==> forall i :: 0 <= i < |reqs| ==> e.items[i].valid
  {
    MineMapLatest(mine);
    var m := MineMap(mine);
    var items := seq(|reqs|, i requires 0 <= i < |reqs| => Enrich(reqs[i], m, now));
    Eligibility(labId, userId, forall i :: 0 <= i < |items| ==> items[i].valid, items)
  }

  /**
   * An item is valid exactly when the user's last record of that training
   * has no expiry or expires strictly after now.
   */
  lemma ValidIffLatestRecord(labId: int, userId: int, reqs: seq<Requirement>, mine: seq<Training>, now: int, i: nat)
    requires i < |reqs|
    ensures LabRequirements(labId, userId, reqs, mine, now).items[i].valid <==>
      exists j :: Latest(mine, j) && mine[j].trainingId == reqs[i].trainingId
                  && (mine[j].expiresAt.None? || mine[j].expiresAt.value > now)
  {
    var e := LabRequirements(labId, userId, reqs, mine, now);
    MineMapLatest(mine);
    var m := MineMap(mine);
    var k := reqs[i].trainingId;
    assert e.items[i] == Enrich(reqs[i], m, now);
    if k in m {
      var j := LastIndexOf(mine, k);
      assert m[k] == mine[j];
      forall j' | Latest(mine, j') && mine[j'].trainingId == k ensures j' == j {
      }
    }
  }

  /** The last position holding training `k`, when some record holds it. */
  function LastIndexOf(mine: seq<Training>, k: int): (j: nat)
    requires exists j :: 0 <= j < |mine| && mine[j].trainingId == k
    ensures Latest(mine, j) && mine[j].trainingId == k
    decreases |mine|
  {
    if mine[|mine| - 1].trainingId == k then |mine| - 1
    else
      var init := mine[..|mine| - 1];
      assert exists j :: 0 <= j < |init| && init[j].trainingId == k by {
        var j :| 0 <= j < |mine| && mine[j].trainingId == k;
        assert init[j] == mine[j];
      }
      var j := LastIndexOf(init, k);
      assert init[j] == mine[j];
      j
  }

  /** A lab without requirements admits everyone. */
  lemma NoRequirementsEligible(labId: int, userId: int, mine: seq<Training>, now: int)
    ensures LabRequirements(labId, userId, [], mine, now).eligible
    ensures LabRequirements(labId, userId, [], mine, now).items == []
  {
  }

  // ----- profile update -----

  /** `fieldMap`: the profile keys the front end sends and the columns they set. */
  function ProfileColumn(key: string): Option<string> {
    if key == "name" then Some("full_name")
    else if key == "phone" then Some("phone")
    else if key == "department" then Some("career_or_dept")
    else None
  }

  datatype ProfileUpdate = CurrentProfile | UpdateProfile(sets: seq<string>, args: seq<JsValue>, idSlot: nat)

  /**
   * `updateProfile`: each mapped key, in body order, becomes `column = $k`
   * with its value (`?? null`) as the `k`-th argument; with none, the
   * current profile is read back without an `UPDATE`; otherwise the id is
   * the last argument and the one the `WHERE` names.
   */
  method UpdateProfileQuery(id: JsValue, payload: seq<Member>) returns (u: ProfileUpdate)
    ensures u.CurrentProfile? <==> |Mapped(payload, ProfileColumn)| == 0
    ensures u.UpdateProfile? ==>
      var mapped := Mapped(payload, ProfileColumn);
      |u.sets| == |mapped| && |u.args| == |mapped| + 1
      && u.idSlot == |u.args| && u.args[u.idSlot - 1] == id
      && forall i :: 0 <= i < |mapped| ==>
           u.sets[i] == Assignment(ProfileColumn(mapped[i].key).value, i + 1)
           && u.args[i] == Sent(mapped[i].value, true)
  {
    var sets, args := BuildAssignments(payload, ProfileColumn, true);
    if |sets| == 0 {
      return CurrentProfile;
    }
    u := UpdateProfile(sets, args + [id], |args| + 1);
    assert forall i :: 0 <= i < |args| ==> u.args[i] == args[i];
  }

  /** Only `name`, `phone` and `department` reach the `SET` clause; any other key changes nothing. */
  lemma ProfileIgnoresOtherKeys(payload: seq<Member>, extra: seq<Member>)
    requires forall i :: 0 <= i < |extra| ==> extra[i].key != "name" && extra[i].key != "phone" && extra[i].key != "department"
    ensures Mapped(payload + extra, ProfileColumn) == Mapped(payload, ProfileColumn)
    ensures forall i :: 0 <= i < |Mapped(payload, ProfileColumn)| ==>
      Mapped(payload, ProfileColumn)[i].key in ["name", "phone", "department"]
  {
    MappedIgnoresUnknown(payload, extra, ProfileColumn);
  }

  // ----- trainings -----

  /** A `user_trainings` row; `training_id` is an integer column. */
  datatype TrainingRecord = TrainingRecord(userId: int, trainingId: int, completedAt: JsValue, expiresAt: JsValue)

  /**
   * What `upsertTraining` ends in: status 400 for a falsy `training_id`,
   * the database's refusal (SQLSTATE 22P02, thrown to the caller) of one
   * it cannot read as an integer, or the stored row.
   */
  datatype UpsertReply = TrainingIdRequired | TrainingIdRefused | Upserted(row: TrainingRecord)

  /**
   * The row `upsertTraining` writes: a falsy completion date becomes the
   * database's `NOW()` (through `|| null` and `COALESCE`), a falsy expiry
   * becomes `NULL`.
   */
  function TrainingRow(userId: int, trainingId: int, completedAt: JsValue, expiresAt: JsValue, dbNow: JsValue)
    : (r: TrainingRecord)
    ensures r.userId == userId && r.trainingId == trainingId
    ensures Truthy(completedAt) ==> r.completedAt == completedAt
    ensures !Truthy(completedAt) ==> r.completedAt == dbNow
    ensures Truthy(expiresAt) ==> r.expiresAt == expiresAt
    ensures !Truthy(expiresAt) ==> r.expiresAt == Null
  {
    var completed := Or(completedAt, Null);
    TrainingRecord(userId, trainingId, if completed == Null then dbNow else completed, Or(expiresAt, Null))
  }

  /** The table after the upsert: the row of `(user, training)` is inserted or replaced. */
  function UpsertedStore(records: map<(int, int), TrainingRecord>, row: TrainingRecord)
    : (r: map<(int, int), TrainingRecord>)
    ensures (row.userId, row.trainingId) in r && r[(row.userId, row.trainingId)] == row
    ensures forall key :: key in r && key != (row.userId, row.trainingId) ==> key in records && r[key] == records[key]
    ensures forall key :: key in records ==> key in r
  {
    records[(row.userId, row.trainingId) := row]
  }

  /** Repeating the same upsert leaves the table as the first one did. */
  lemma UpsertIdempotent(records: map<(int, int), TrainingRecord>, row: TrainingRecord)
    ensures UpsertedStore(UpsertedStore(records, row), row) == UpsertedStore(records, row)
  {
  }

  /** A later upsert of the same user and training replaces the earlier row instead of adding one. */
  lemma LaterUpsertReplaces(records: map<(int, int), TrainingRecord>, first: TrainingRecord, second: TrainingRecord)
    requires first.userId == second.userId && first.trainingId == second.trainingId
    ensures UpsertedStore(UpsertedStore(records, first), second) == UpsertedStore(records, second)
  {
  }

  /** The `user_trainings` table, keyed by the `(user_id, training_id)` conflict target. */
  class TrainingStore {
    var records: map<(int, int), TrainingRecord>

    constructor ()
      ensures records == map[]
    {
      records := map[];
    }

    /**
     * `upsertTraining`: a falsy `training_id` is refused with status 400
     * before any write; one the database cannot read as an integer makes
     * the statement fail with no write; otherwise the row of the integer
     * the database reads is inserted or replaced.
     */
    method UpsertTraining(userId: int, trainingId: JsValue, completedAt: JsValue, expiresAt: JsValue, dbNow: JsValue)
      returns (reply: UpsertReply)
      modifies this
      ensures reply.TrainingIdRequired? <==> !Truthy(trainingId)
      ensures reply.TrainingIdRefused? <==> Truthy(trainingId) && IntParamOf(trainingId).BadInteger?
      ensures !reply.Upserted? ==> records == old(records)
      ensures reply.Upserted? ==>
        IntParamOf(trainingId).IntValue?
        && reply.row == TrainingRow(userId, IntParamOf(trainingId).n, completedAt, expiresAt, dbNow)
        && records == UpsertedStore(old(records), reply.row)
    {
      if !Truthy(trainingId) {
        return TrainingIdRequired;
      }
      match IntParamOf(trainingId)
      case IntValue(n) =>
        var row := TrainingRow(userId, n, completedAt, expiresAt, dbNow);
        records := UpsertedStore(records, row);
        reply := Upserted(row);
      case _ =>
        reply := TrainingIdRefused;
    }
  }
}
