/** Trainers of a gym organization: created with a trimmed, non-blank name,
    renamed and deactivated in place, and looked up with the trainings they
    are currently running. */
module TrainerService {
  import opened Common
  import opened GymStore
  import PrismaDelegate

  const TrainerNotFound := Err("Trainer not found")
  const OrgRequired := Err("Organization ID is required")
  const NameRequired := Err("Trainer name is required")

  /** `getTrainerById`. */
  function GetTrainerById(trainers: seq<Trainer>, id: Id): (r: Result<Trainer>)
    ensures r.Ok? <==> id < |trainers|
    ensures r.Ok? ==> r.value == trainers[id]
    ensures r.Fail? ==> r.error == TrainerNotFound
  {
    if id < |trainers| then Ok(trainers[id]) else Fail(TrainerNotFound)
  }

  /** Trimming a trimmed string changes nothing. */
  lemma TrimIdempotent(s: string)
    ensures Trim(Trim(s)) == Trim(s)
  {
    var r := Trim(s);
    if r != "" {
      assert TrimStart(r) == r;
      assert TrimEnd(r) == r;
    }
  }

  /** Every stored trainer name is trimmed. */
  predicate NamesTrimmed(trainers: seq<Trainer>) {
    forall i :: 0 <= i < |trainers| ==> Trim(trainers[i].name) == trainers[i].name
  }

  lemma AppendKeepsTrimmed(trainers: seq<Trainer>, t: Trainer)
    requires NamesTrimmed(trainers) && Trim(t.name) == t.name
    ensures NamesTrimmed(trainers + [t])
  {
    var after := trainers + [t];
    forall i | 0 <= i < |after|
      ensures Trim(after[i].name) == after[i].name
    {
      if i < |trainers| {
        assert after[i] == trainers[i];
      }
    }
  }

  lemma ReplaceKeepsTrimmed(trainers: seq<Trainer>, id: Id, t: Trainer)
    requires NamesTrimmed(trainers) && id < |trainers| && Trim(t.name) == t.name
    ensures NamesTrimmed(trainers[id := t])
  {
    var after := trainers[id := t];
    forall i | 0 <= i < |after|
      ensures Trim(after[i].name) == after[i].name
    {
      if i != id {
        assert after[i] == trainers[i];
      }
    }
  }

  /** The fields `createTrainer` reads. */
  datatype TrainerData = TrainerData(orgId: Option<string>, name: Option<string>)

  /** The row `createTrainer` writes, or why it refuses; the store makes a
      new trainer active. */
  function NewTrainer(d: TrainerData): (r: Result<Trainer>)
    ensures !Present(d.orgId) ==> r == Fail(OrgRequired)
    ensures Present(d.orgId) && MissingOrBlank(d.name) ==> r == Fail(NameRequired)
    ensures r.Ok? <==> Present(d.orgId) && !MissingOrBlank(d.name)
    ensures r.Ok? ==> && r.value.orgId == d.orgId.value && r.value.isActive
                      && r.value.name == Trim(d.name.value) && r.value.name != ""
                      && Trim(r.value.name) == r.value.name
  {
    if !Present(d.orgId) then Fail(OrgRequired)
    else if MissingOrBlank(d.name) then Fail(NameRequired)
    else
      TrimIdempotent(d.name.value);
      Ok(Trainer(d.orgId.value, Trim(d.name.value), true))
  }

  /** `createTrainer`. */
  method CreateTrainer(db: Db, d: TrainerData) returns (r: Result<Id>)
    requires NamesTrimmed(db.trainers)
    modifies db`trainers
    ensures NamesTrimmed(db.trainers)
    ensures match NewTrainer(d)
            case Fail(e) => r == Fail(e) && db.trainers == old(db.trainers)
            case Ok(t) => r == Ok(|old(db.trainers)|) && db.trainers == old(db.trainers) + [t]
  {
    var n := NewTrainer(d);
    if n.Fail? {
      return Fail(n.error);
    }
    AppendKeepsTrimmed(db.trainers, n.value);
    r := Ok(|db.trainers|);
    db.trainers := db.trainers + [n.value];
  }

  /** `createTrainer` as written: the checks of `NewTrainer` answer as
      there, and a trainer that passes them is refused by the Prisma
      delegate, which takes the fields inherited `create` hands it as
      unknown arguments. */
  function NewTrainerAsWritten(d: TrainerData): (r: Result<Trainer>)
    ensures r.Fail?
    ensures NewTrainer(d).Fail? ==> r == NewTrainer(d)
    ensures NewTrainer(d).Ok? ==> r == Fail(PrismaDelegate.InvalidInvocation("trainer", "create"))
  {
    if NewTrainer(d).Fail? then NewTrainer(d)
    else Fail(PrismaDelegate.Raised("trainer", PrismaDelegate.Create))
  }

  /** The keys an update may carry. */
  datatype TrainerPatch = TrainerPatch(name: Option<string>, isActive: Option<bool>)

  /** `updateTrainer`: the trainer must exist; a given name is stored
      trimmed (blank is not refused here), and the trainer is returned as
      read back after the write. */
  function UpdatedTrainer(trainers: seq<Trainer>, id: Id, p: TrainerPatch): (r: Result<Trainer>)
    ensures r.Fail? <==> id >= |trainers|
    ensures r.Fail? ==> r.error == TrainerNotFound
    ensures r.Ok? ==> && r.value.orgId == trainers[id].orgId
                      && r.value.name == (if p.name.Some? then Trim(p.name.value) else trainers[id].name)
                      && r.value.isActive == Default(p.isActive, trainers[id].isActive)
  {
    if id >= |trainers| then Fail(TrainerNotFound)
    else
      var t := trainers[id];
      Ok(t.(name := if p.name.Some? then Trim(p.name.value) else t.name,
            isActive := Default(p.isActive, t.isActive)))
  }

  /** An update with nothing supplied returns the trainer unchanged. */
  lemma EmptyUpdateChangesNothing(trainers: seq<Trainer>, id: Id)
    requires id < |trainers|
    ensures UpdatedTrainer(trainers, id, TrainerPatch(None, None)) == Ok(trainers[id])
  {
  }

  /** `updateTrainer`. */
  method UpdateTrainer(db: Db, id: Id, p: TrainerPatch) returns (r: Result<Trainer>)
    requires NamesTrimmed(db.trainers)
    modifies db`trainers
    ensures NamesTrimmed(db.trainers)
    ensures r == UpdatedTrainer(old(db.trainers), id, p)
    ensures r.Fail? ==> db.trainers == old(db.trainers)
    ensures r.Ok? ==> db.trainers == old(db.trainers)[id := r.value]
  {
    r := UpdatedTrainer(db.trainers, id, p);
    if r.Ok? {
      if p.name.Some? {
        TrimIdempotent(p.name.value);
      }
      ReplaceKeepsTrimmed(db.trainers, id, r.value);
      db.trainers := db.trainers[id := r.value];
    }
  }

  /** `deactivateTrainer`: the update that only clears `isActive`. */
  method DeactivateTrainer(db: Db, id: Id) returns (r: Result<Trainer>)
    requires NamesTrimmed(db.trainers)
    modifies db`trainers
    ensures NamesTrimmed(db.trainers)
    ensures id >= |old(db.trainers)| ==> r == Fail(TrainerNotFound) && db.trainers == old(db.trainers)
    ensures id < |old(db.trainers)| ==>
              && r == Ok(old(db.trainers)[id].(isActive := false))
              && db.trainers == old(db.trainers)[id := r.value]
  {
    r := UpdateTrainer(db, id, TrainerPatch(None, Some(false)));
  }

  /** The trainings a trainer is running: active, and assigned to them. */
  predicate RunsActive(s: Subscription, trainerId: Id) {
    s.trainerId == Some(trainerId) && s.status == Active
  }

  /** The ids of those trainings, in id order. */
  function ActiveClients(trainings: seq<Subscription>, trainerId: Id): (r: seq<Id>)
    ensures forall t: Id :: t in r <==> t < |trainings| && RunsActive(trainings[t], trainerId)
    ensures forall i, j :: 0 <= i < j < |r| ==> r[i] < r[j]
  {
    if trainings == [] then []
    else
      var n := |trainings| - 1;
      var rest := ActiveClients(trainings[..n], trainerId);
      forall i | 0 <= i < |rest|
        ensures rest[i] < n
      {
        assert rest[i] in rest;
      }
      if RunsActive(trainings[n], trainerId) then rest + [n] else rest
  }

  datatype TrainerWithClients = TrainerWithClients(trainer: Trainer, trainings: seq<Id>)

  /** `getTrainerWithActiveClients`. */
  function GetTrainerWithActiveClients(trainers: seq<Trainer>, trainings: seq<Subscription>, id: Id): (r: Result<TrainerWithClients>)
    ensures r.Fail? <==> id >= |trainers|
    ensures r.Fail? ==> r.error == TrainerNotFound
    ensures r.Ok? ==> r.value.trainer == trainers[id]
    ensures r.Ok? ==> forall t: Id :: t in r.value.trainings <==> t < |trainings| && RunsActive(trainings[t], id)
  {
    if id >= |trainers| then Fail(TrainerNotFound)
    else Ok(TrainerWithClients(trainers[id], ActiveClients(trainings, id)))
  }

  /** A training that ends or is cancelled drops out of its trainer's
      clients, and nothing else does. */
  lemma EndedTrainingLeavesClients(trainings: seq<Subscription>, i: nat, st: Status, trainerId: Id)
    requires i < |trainings| && st != Active
    ensures forall t: Id :: t in ActiveClients(trainings[i := trainings[i].(status := st)], trainerId)
                        <==> t in ActiveClients(trainings, trainerId) && t != i
  {
  }
}
