/** Trainer appointment slots: `GET /trainer-slots/:email` (with the lazy
    creation of default slots), `DELETE /trainer-slots/:id` and
    `POST /trainer-slots`. */
module Slots {
  import opened Wrappers
  import opened Http
  import opened Text
  import opened Seqs
  import opened Store
  import opened Trainers

  /** Filter `{ trainerEmail: email }` on `trainer-slots`. */
  function SlotOf(email: string): Slot -> bool
  {
    (sl: Slot) => sl.trainerEmail == email
  }

  /** Filter `{ _id: new ObjectId(id) }` on `trainer-slots`. */
  function SlotWithId(id: Id): Slot -> bool
  {
    (sl: Slot) => sl.id == id
  }

  function SlotId(sl: Slot): Id
  {
    sl.id
  }

  /** Slot ids are distinct and below the id counter. */
  predicate SlotIdsFresh(s: Store)
  {
    FreshIds(s.slots, SlotId, s.nextId)
  }

  /** The slot package given to every default slot. */
  const DefaultPackage: string := "Basic"

  /** The slot time used when the trainer declared no `availableTime`. */
  const UnspecifiedTime: string := "Not specified"

  /** One unbooked 'Basic' slot per declared day, in the order of the days,
      with consecutive ids from `firstId`. */
  function DefaultSlots(email: string, trainerId: Id, days: seq<string>, time: string, now: Time, firstId: Id)
    : (r: seq<Slot>)
    ensures |r| == |days|
    ensures forall k :: 0 <= k < |r| ==>
              r[k] == Slot(firstId + k, email, trainerId, days[k], time, DefaultPackage, false, None, now)
    decreases |days|
  {
    if days == [] then []
    else [Slot(firstId, email, trainerId, days[0], time, DefaultPackage, false, None, now)]
         + DefaultSlots(email, trainerId, days[1..], time, now, firstId + 1)
  }

  /** `GET /trainer-slots/:email`: 404 unless an accepted trainer has the
      lower-cased e-mail. When that trainer has no slots yet and declares
      some available days, one default slot per day is inserted and
      returned; otherwise the trainer's existing slots are returned and
      nothing is written. */
  function ListSlots(s: Store, emailParam: string, now: Time): (r: Step<seq<Slot>>)
    ensures var email := ToLower(emailParam);
      Count(s.accepted, AcceptedAs(email)) == 0 ==> r == Step(s, Error(NOT_FOUND, "Trainer not found"))
    ensures r.response.Reply? <==> Count(s.accepted, AcceptedAs(ToLower(emailParam))) > 0
    ensures r.response.Reply? ==>
              var email := ToLower(emailParam);
              var trainer := s.accepted[FindFirst(s.accepted, AcceptedAs(email)).value];
              var days := trainer.record.profile.availableDays;
              var existing := Filter(s.slots, SlotOf(email));
              && r.response.code == OK
              && trainer.record.profile.email == email
              && (|existing| == 0 && |days| > 0 ==>
                    && |r.response.body| == |days|
                    && r.store == s.(slots := s.slots + r.response.body, nextId := s.nextId + |days|)
                    && forall k :: 0 <= k < |days| ==>
                         && r.response.body[k].id == s.nextId + k
                         && r.response.body[k].day == days[k]
                         && r.response.body[k].trainerEmail == email
                         && r.response.body[k].trainerId == trainer.record.id
                         && !r.response.body[k].isBooked
                         && r.response.body[k].bookedBy.None?
                         && r.response.body[k].package == DefaultPackage
                         && r.response.body[k].time == Or(trainer.record.profile.availableTime, UnspecifiedTime)
                         && r.response.body[k].createdAt == now)
              && (|existing| > 0 || |days| == 0 ==> r.store == s && r.response.body == existing)
  {
    var email := ToLower(emailParam);
    match FindFirst(s.accepted, AcceptedAs(email))
    case None => Step(s, Error(NOT_FOUND, "Trainer not found"))
    case Some(i) =>
      var trainer := s.accepted[i];
      var existing := Filter(s.slots, SlotOf(email));
      var days := trainer.record.profile.availableDays;
      if |existing| == 0 && |days| > 0 then
        var time := Or(trainer.record.profile.availableTime, UnspecifiedTime);
        var created := DefaultSlots(email, trainer.record.id, days, time, now, s.nextId);
        Step(s.(slots := s.slots + created, nextId := s.nextId + |days|), Reply(OK, created))
      else
        Step(s, Reply(OK, existing))
  }

  /** Default slots are created once: a second read returns the same slots
      and writes nothing, even at a later time. */
  lemma ListSlotsStable(s: Store, emailParam: string, now: Time, later: Time)
    ensures var first := ListSlots(s, emailParam, now);
      ListSlots(first.store, emailParam, later) == Step(first.store, first.response)
  {
    var email := ToLower(emailParam);
    var first := ListSlots(s, emailParam, now);
    if first.response.Reply? && first.store != s {
      var created := first.response.body;
      assert first.store.accepted == s.accepted;
      FilterAppend(s.slots, created, SlotOf(email));
      FilterAll(created, SlotOf(email));
      assert Filter(first.store.slots, SlotOf(email)) == created;
    }
  }

  /** Materialising default slots keeps slot ids distinct and fresh. */
  lemma ListSlotsKeepsIdsFresh(s: Store, emailParam: string, now: Time)
    requires SlotIdsFresh(s)
    ensures SlotIdsFresh(ListSlots(s, emailParam, now).store)
  {
  }

  /** `DELETE /trainer-slots/:id`: 500 for an id `ObjectId` cannot parse (the
      handler catches the throw), 404 when no slot has the id, 400 when the
      slot is booked; otherwise the slot is deleted and every other slot
      stays, in order. */
  function DeleteSlot(s: Store, id: IdParam): (r: Step<string>)
    ensures id.Malformed? ==> r == Step(s, Error(SERVER_ERROR, "Internal server error"))
    ensures id.Valid? && Count(s.slots, SlotWithId(id.id)) == 0 ==> r == Step(s, Error(NOT_FOUND, "Slot not found"))
    ensures id.Valid? && Count(s.slots, SlotWithId(id.id)) > 0 ==>
              var i := FindFirst(s.slots, SlotWithId(id.id)).value;
              && (s.slots[i].isBooked ==> r == Step(s, Error(BAD_REQUEST, "Cannot delete a booked slot")))
              && (!s.slots[i].isBooked ==>
                    && r.response == Reply(OK, "Slot deleted successfully")
                    && r.store == s.(slots := r.store.slots)
                    && multiset(r.store.slots) + multiset{s.slots[i]} == multiset(s.slots)
                    && r.store.slots == s.slots[..i] + s.slots[i + 1..])
  {
    match id
    case Malformed => Step(s, Error(SERVER_ERROR, "Internal server error"))
    case Valid(sid) =>
      match FindFirst(s.slots, SlotWithId(sid))
      case None => Step(s, Error(NOT_FOUND, "Slot not found"))
      case Some(i) =>
        if s.slots[i].isBooked then Step(s, Error(BAD_REQUEST, "Cannot delete a booked slot"))
        else
          var deleted := DeleteFirst(s.slots, SlotWithId(sid));
          if deleted.1 == 1 then Step(s.(slots := deleted.0), Reply(OK, "Slot deleted successfully"))
          else Step(s, Error(SERVER_ERROR, "Failed to delete slot"))
  }

  /** With distinct slot ids, a successful delete leaves no slot with the id,
      and a booked slot can never be deleted. */
  lemma DeletedSlotIsGone(s: Store, sid: Id)
    requires SlotIdsFresh(s)
    ensures var r := DeleteSlot(s, Valid(sid));
      && (r.response.Reply? ==> Count(r.store.slots, SlotWithId(sid)) == 0 && SlotIdsFresh(r.store))
      && (forall k :: 0 <= k < |s.slots| && s.slots[k].id == sid && s.slots[k].isBooked ==> r.store == s)
  {
    var r := DeleteSlot(s, Valid(sid));
    if r.response.Reply? {
      var i := FindFirst(s.slots, SlotWithId(sid)).value;
      assert r.store.slots == RemoveAt(s.slots, i);
      RemoveKeepsIdsFresh(s.slots, SlotId, s.nextId, i);
      assert forall k :: 0 <= k < |r.store.slots| ==> !SlotWithId(sid)(r.store.slots[k]);
    }
  }

  /** Removing one element keeps ids fresh, and no element left shares the
      removed one's id. */
  lemma RemoveKeepsIdsFresh<T>(xs: seq<T>, id: T -> Id, next: Id, i: nat)
    requires i < |xs| && FreshIds(xs, id, next)
    ensures FreshIds(RemoveAt(xs, i), id, next)
    ensures forall k :: 0 <= k < |xs| - 1 ==> id(RemoveAt(xs, i)[k]) != id(xs[i])
  {
    var rest := RemoveAt(xs, i);
    forall k | 0 <= k < |rest|
      ensures rest[k] == xs[if k < i then k else k + 1]
    {
    }
  }

  /** `POST /trainer-slots`: the body is stored as it is, with no check for
      overlapping or duplicate slots, under a fresh id; 201. */
  function CreateSlot(s: Store, body: Slot): (r: Step<Inserted>)
    ensures r.response == Reply(CREATED, Inserted(s.nextId))
    ensures |r.store.slots| == |s.slots| + 1 && r.store.slots[..|s.slots|] == s.slots
    ensures r.store.slots[|s.slots|] == body.(id := s.nextId)
    ensures r.store == s.(slots := r.store.slots, nextId := s.nextId + 1)
    ensures SlotIdsFresh(s) ==> SlotIdsFresh(r.store)
  {
    var slot := body.(id := s.nextId);
    Step(s.(slots := s.slots + [slot], nextId := s.nextId + 1), Reply(CREATED, Inserted(slot.id)))
  }
}
