/** `POST /newsletter`: subscription with a case-insensitive duplicate check. */
module Newsletter {
  import opened Http
  import opened Text
  import opened Seqs
  import opened Store

  function SubscriberEmail(sub: Subscriber): string
  {
    sub.email
  }

  predicate Subscribed(subs: seq<Subscriber>, email: string)
  {
    exists i :: 0 <= i < |subs| && subs[i].email == email
  }

  /** 400 unless both `name` and `email` are given; 409 when the lower-cased
      e-mail is already subscribed; otherwise 201 and one new subscriber. */
  function Subscribe(s: Store, name: string, email: string, now: Time): (r: Step<Inserted>)
    ensures name == "" || email == "" ==> r == Step(s, Error(BAD_REQUEST, "Name and Email are required."))
    ensures name != "" && email != "" && Subscribed(s.subscribers, ToLower(email)) ==>
              r == Step(s, Error(CONFLICT, "You are already subscribed!"))
    ensures r.response.Reply? <==> name != "" && email != "" && !Subscribed(s.subscribers, ToLower(email))
    ensures r.response.Reply? ==>
              && r.response == Reply(CREATED, Inserted(s.nextId))
              && r.store == s.(subscribers := s.subscribers + [Subscriber(s.nextId, name, ToLower(email), now)],
                               nextId := s.nextId + 1)
    ensures DistinctLower(s.subscribers, SubscriberEmail) ==> DistinctLower(r.store.subscribers, SubscriberEmail)
  {
    if name == "" || email == "" then Step(s, Error(BAD_REQUEST, "Name and Email are required."))
    else
      var e := ToLower(email);
      if FindFirst(s.subscribers, (sub: Subscriber) => sub.email == e).Some? then
        Step(s, Error(CONFLICT, "You are already subscribed!"))
      else
        Step(s.(subscribers := s.subscribers + [Subscriber(s.nextId, name, e, now)], nextId := s.nextId + 1),
             Reply(CREATED, Inserted(s.nextId)))
  }

  /** Subscribing the same address twice, in any letter case, is refused the
      second time and leaves the list as the first call made it. */
  lemma SubscribeTwiceConflicts(s: Store, name: string, a: string, b: string, now: Time, later: Time)
    requires ToLower(a) == ToLower(b) && b != ""
    requires Subscribe(s, name, a, now).response.Reply?
    ensures var s1 := Subscribe(s, name, a, now).store;
      Subscribe(s1, name, b, later) == Step(s1, Error(CONFLICT, "You are already subscribed!"))
  {
    var s1 := Subscribe(s, name, a, now).store;
    assert s1.subscribers[|s.subscribers|].email == ToLower(b);
  }
}
