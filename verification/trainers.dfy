/** The trainer-application lifecycle: `POST /become-a-trainer`,
    `POST /become-a-trainer/confirm`, `POST /become-a-trainer/reject`,
    `PATCH /remove-trainer` and `GET /trainer-application-status`.
    An application is "moved" by inserting a copy into `trainers` or
    `trainer-rejections` and deleting it from `become-a-trainer`. */
module Trainers {
  import opened Wrappers
  import opened Http
  import opened Text
  import opened Seqs
  import opened Store
  import opened Users

  /** Filter `{ email }` on `become-a-trainer`. */
  function AppliedAs(email: string): Application -> bool
  {
    (a: Application) => a.profile.email == email
  }

  /** Filter `{ email }` on `trainers`. */
  function AcceptedAs(email: string): AcceptedTrainer -> bool
  {
    (t: AcceptedTrainer) => t.record.profile.email == email
  }

  /** Filter `{ email }` on `trainer-rejections`. */
  function RejectedAs(email: string): Rejection -> bool
  {
    (x: Rejection) => x.record.profile.email == email
  }

  /** No user before position `k` has this e-mail. */
  predicate NoneBefore(users: seq<User>, email: string, k: int)
  {
    forall j :: 0 <= j < k && j < |users| ==> users[j].email != email
  }

  /** `users` afterwards differs from `users` before only in the `role` of
      the first user with this e-mail, who, if there is one, now has `role`. */
  predicate RoleSet(before: seq<User>, after: seq<User>, email: string, role: Role)
  {
    && |after| == |before|
    && (forall k :: 0 <= k < |before| ==> after[k].(role := before[k].role) == before[k])
    && (forall k :: 0 <= k < |before| && after[k] != before[k] ==> before[k].email == email && NoneBefore(before, email, k))
    && (Registered(before, email) ==>
          exists k :: 0 <= k < |after| && after[k].email == email && after[k].role == role && NoneBefore(before, email, k))
  }

  /** `updateOne({ email }, { $set: { role } })`: the users afterwards and the
      `modifiedCount`, which is 0 when nobody matches or the role was already set. */
  function SetRole(users: seq<User>, email: string, role: Role): (r: (seq<User>, nat))
    ensures RoleSet(users, r.0, email, role)
    ensures r.1 <= 1
    ensures r.1 == 1 <==> FindFirst(users, UserAs(email)).Some? && users[FindFirst(users, UserAs(email)).value].role != role
    ensures r.1 == 0 ==> r.0 == users
  {
    match FindFirst(users, UserAs(email))
    case None => (users, 0)
    case Some(i) =>
      if users[i].role == role then (users, 0)
      else (users[i := users[i].(role := role)], 1)
  }

  /** `POST /become-a-trainer`: store the body as a new `pending` application. */
  function Apply(s: Store, profile: Profile, now: Time): (r: Step<Inserted>)
    ensures r.response == Reply(CREATED, Inserted(s.nextId))
    ensures |r.store.pending| == |s.pending| + 1 && r.store.pending[..|s.pending|] == s.pending
    ensures var app := r.store.pending[|s.pending|];
              app.id == s.nextId && app.profile == profile && app.status == Pending && app.appliedAt == now
    ensures r.store == s.(pending := r.store.pending, nextId := s.nextId + 1)
  {
    var app := Application(s.nextId, profile, Pending, now);
    Step(s.(pending := s.pending + [app], nextId := s.nextId + 1), Reply(CREATED, Inserted(app.id)))
  }

  /** An application adds one pending record for its e-mail, so a
      confirmation for that e-mail afterwards finds it and succeeds. */
  lemma ApplyThenConfirm(s: Store, profile: Profile, now: Time, later: Time)
    ensures var s1 := Apply(s, profile, now).store;
      && Count(s1.pending, AppliedAs(profile.email)) == Count(s.pending, AppliedAs(profile.email)) + 1
      && Confirm(s1, profile.email, later).response.Reply?
  {
    var s1 := Apply(s, profile, now).store;
    assert s1.pending == s.pending + [s1.pending[|s.pending|]];
    CountAppend(s.pending, [s1.pending[|s.pending|]], AppliedAs(profile.email));
  }

  /** The reply of a confirmation: `userUpdated` and `deletedFromPending`. */
  datatype ConfirmCounts = ConfirmCounts(userUpdated: nat, deletedFromPending: nat)

  /** `POST /become-a-trainer/confirm`: 404 without a pending application for
      the e-mail; otherwise copy the first one into `trainers` with status
      'accepted', make the user with that e-mail a trainer and delete the
      pending record. */
  function Confirm(s: Store, email: string, now: Time): (r: Step<ConfirmCounts>)
    ensures r.response.Error? <==> Count(s.pending, AppliedAs(email)) == 0
    ensures Count(s.pending, AppliedAs(email)) == 0 ==>
              r == Step(s, Error(NOT_FOUND, "Trainer application not found"))
    ensures Count(s.pending, AppliedAs(email)) > 0 ==>
              var i := FindFirst(s.pending, AppliedAs(email)).value;
              var app := s.pending[i];
              && app.profile.email == email
              && r.store.accepted == s.accepted + [AcceptedTrainer(app.(status := Accepted), now)]
              && r.store.pending == RemoveAt(s.pending, i)
              && multiset(r.store.pending) + multiset{app} == multiset(s.pending)
              && Count(r.store.pending, AppliedAs(email)) == Count(s.pending, AppliedAs(email)) - 1
              && RoleSet(s.users, r.store.users, email, Trainer)
              && r.store == s.(pending := r.store.pending, accepted := r.store.accepted, users := r.store.users)
              && r.response.Reply? && r.response.code == OK
              && r.response.body.deletedFromPending == 1
              && r.response.body.userUpdated == SetRole(s.users, email, Trainer).1
  {
    match FindFirst(s.pending, AppliedAs(email))
    case None => Step(s, Error(NOT_FOUND, "Trainer application not found"))
    case Some(i) =>
      var app := s.pending[i];
      var accepted := s.accepted + [AcceptedTrainer(app.(status := Accepted), now)];
      var promoted := SetRole(s.users, email, Trainer);
      var deleted := DeleteFirst(s.pending, AppliedAs(email));
      Step(s.(accepted := accepted, users := promoted.0, pending := deleted.0),
           Reply(OK, ConfirmCounts(promoted.1, deleted.1)))
  }

  /** The reply of a rejection: `deleted` and `rejected: true`. */
  datatype RejectCounts = RejectCounts(deleted: nat, rejected: bool)

  /** `POST /become-a-trainer/reject`: 404 without a pending application for
      the e-mail; otherwise append a copy carrying `feedback` to
      `trainer-rejections` (its status stays 'pending', as the spread copies
      it) and delete the pending record. */
  function Reject(s: Store, email: string, feedback: string, now: Time): (r: Step<RejectCounts>)
    ensures r.response.Error? <==> Count(s.pending, AppliedAs(email)) == 0
    ensures Count(s.pending, AppliedAs(email)) == 0 ==>
              r == Step(s, Error(NOT_FOUND, "Trainer application not found"))
    ensures Count(s.pending, AppliedAs(email)) > 0 ==>
              var i := FindFirst(s.pending, AppliedAs(email)).value;
              var app := s.pending[i];
              && app.profile.email == email
              && r.store.rejected == s.rejected + [Rejection(app, feedback, now)]
              && r.store.pending == RemoveAt(s.pending, i)
              && multiset(r.store.pending) + multiset{app} == multiset(s.pending)
              && Count(r.store.pending, AppliedAs(email)) == Count(s.pending, AppliedAs(email)) - 1
              && r.store == s.(pending := r.store.pending, rejected := r.store.rejected)
              && r.response == Reply(OK, RejectCounts(1, true))
  {
    match FindFirst(s.pending, AppliedAs(email))
    case None => Step(s, Error(NOT_FOUND, "Trainer application not found"))
    case Some(i) =>
      var entry := Rejection(s.pending[i], feedback, now);
      var deleted := DeleteFirst(s.pending, AppliedAs(email));
      Step(s.(rejected := s.rejected + [entry], pending := deleted.0), Reply(OK, RejectCounts(deleted.1, true)))
  }

  /** The reply of a demotion: `modified` and `deleted`. */
  datatype RemoveCounts = RemoveCounts(modified: nat, deleted: nat)

  /** `PATCH /remove-trainer`: 400 without an e-mail; otherwise set the
      user's role back to 'member' and delete one `trainers` record. Both
      writes may match nothing; that is still a 200. */
  function RemoveTrainer(s: Store, email: string): (r: Step<RemoveCounts>)
    ensures email == "" ==> r == Step(s, Error(BAD_REQUEST, "Email is required"))
    ensures email != "" ==>
              && RoleSet(s.users, r.store.users, email, Member)
              && r.store == s.(users := r.store.users, accepted := r.store.accepted)
              && r.response.Reply? && r.response.code == OK
              && r.response.body.modified == SetRole(s.users, email, Member).1
              && (r.response.body.deleted == 1 <==> Count(s.accepted, AcceptedAs(email)) > 0)
              && (r.response.body.deleted == 0 ==> r.store.accepted == s.accepted)
              && (r.response.body.deleted == 1 ==>
                    r.store.accepted == RemoveAt(s.accepted, FindFirst(s.accepted, AcceptedAs(email)).value))
              && Count(r.store.accepted, AcceptedAs(email)) == Count(s.accepted, AcceptedAs(email)) - r.response.body.deleted
  {
    if email == "" then Step(s, Error(BAD_REQUEST, "Email is required"))
    else
      var demoted := SetRole(s.users, email, Member);
      var deleted := DeleteFirst(s.accepted, AcceptedAs(email));
      Step(s.(users := demoted.0, accepted := deleted.0), Reply(OK, RemoveCounts(demoted.1, deleted.1)))
  }

  /** Confirming moves one record: for every e-mail, the number of its
      records in `become-a-trainer` and `trainers` together is unchanged. */
  lemma ConfirmConservesRecords(s: Store, email: string, now: Time, other: string)
    requires Count(s.pending, AppliedAs(email)) > 0
    ensures var s' := Confirm(s, email, now).store;
      Count(s'.pending, AppliedAs(other)) + Count(s'.accepted, AcceptedAs(other))
        == Count(s.pending, AppliedAs(other)) + Count(s.accepted, AcceptedAs(other))
  {
    var i := FindFirst(s.pending, AppliedAs(email)).value;
    var app := s.pending[i];
    var s' := Confirm(s, email, now).store;
    assert s'.pending == RemoveAt(s.pending, i);
    CountRemoveAt(s.pending, i, AppliedAs(other));
    CountAppend(s.accepted, [AcceptedTrainer(app.(status := Accepted), now)], AcceptedAs(other));
  }

  /** Rejecting moves one record: for every e-mail, the number of its records
      in `become-a-trainer` and `trainer-rejections` together is unchanged. */
  lemma RejectConservesRecords(s: Store, email: string, feedback: string, now: Time, other: string)
    requires Count(s.pending, AppliedAs(email)) > 0
    ensures var s' := Reject(s, email, feedback, now).store;
      Count(s'.pending, AppliedAs(other)) + Count(s'.rejected, RejectedAs(other))
        == Count(s.pending, AppliedAs(other)) + Count(s.rejected, RejectedAs(other))
  {
    var i := FindFirst(s.pending, AppliedAs(email)).value;
    var app := s.pending[i];
    var s' := Reject(s, email, feedback, now).store;
    assert s'.pending == RemoveAt(s.pending, i);
    CountRemoveAt(s.pending, i, AppliedAs(other));
    CountAppend(s.rejected, [Rejection(app, feedback, now)], RejectedAs(other));
  }

  /** With a single pending application, a second rejection finds nothing:
      404, and the store stays as the first rejection left it. */
  lemma RejectTwiceNotFound(s: Store, email: string, fb1: string, fb2: string, now: Time, later: Time)
    requires Count(s.pending, AppliedAs(email)) == 1
    ensures var s1 := Reject(s, email, fb1, now).store;
      Reject(s1, email, fb2, later) == Step(s1, Error(NOT_FOUND, "Trainer application not found"))
  {
  }

  /** With a single pending application, a second confirmation is a 404 too. */
  lemma ConfirmTwiceNotFound(s: Store, email: string, now: Time, later: Time)
    requires Count(s.pending, AppliedAs(email)) == 1
    ensures var s1 := Confirm(s, email, now).store;
      Confirm(s1, email, later) == Step(s1, Error(NOT_FOUND, "Trainer application not found"))
  {
  }

  /** Demotion is idempotent when at most one `trainers` record has the
      e-mail: the second call writes nothing and reports zero counts. */
  lemma RemoveTrainerIdempotent(s: Store, email: string)
    requires email != ""
    requires Count(s.accepted, AcceptedAs(email)) <= 1
    ensures var s1 := RemoveTrainer(s, email).store;
      RemoveTrainer(s1, email) == Step(s1, Reply(OK, RemoveCounts(0, 0)))
  {
    var demoted := SetRole(s.users, email, Member);
    var deleted := DeleteFirst(s.accepted, AcceptedAs(email));
    var s1 := RemoveTrainer(s, email).store;
    assert s1.users == demoted.0 && s1.accepted == deleted.0;
    assert Count(s1.accepted, AcceptedAs(email)) == 0;
    assert DeleteFirst(s1.accepted, AcceptedAs(email)) == (s1.accepted, 0);
    SameMatchesSameFirst(s.users, s1.users, UserAs(email));
    assert SetRole(s1.users, email, Member) == (s1.users, 0);
  }

  /** Nothing stops a member from applying twice; confirming both
      applications leaves two `trainers` records (with distinct ids) for one
      e-mail, and then demotion is not idempotent: the second call deletes
      again. */
  lemma RemoveTrainerTwiceDeletesAgain(profile: Profile, now: Time)
    requires profile.email != ""
    ensures var s0 := Store([], [], [], [], [], [], [], [], 0);
      var s1 := Apply(Apply(s0, profile, now).store, profile, now).store;
      var s2 := Confirm(Confirm(s1, profile.email, now).store, profile.email, now).store;
      var s3 := RemoveTrainer(s2, profile.email).store;
      && |s2.accepted| == 2 && s2.accepted[0].record.id != s2.accepted[1].record.id
      && RemoveTrainer(s3, profile.email).response == Reply(OK, RemoveCounts(0, 1))
  {
    var email := profile.email;
    var s0 := Store([], [], [], [], [], [], [], [], 0);
    var s1 := Apply(Apply(s0, profile, now).store, profile, now).store;
    assert s1.pending == [Application(0, profile, Pending, now), Application(1, profile, Pending, now)];
    assert s1.users == [] && s1.accepted == [];
    ConfirmHead(s1, email, now);
    var c1 := Confirm(s1, email, now).store;
    ConfirmHead(c1, email, now);
    var s2 := Confirm(c1, email, now).store;
    assert s2.users == [];
    RemoveHead(s2, email);
    var s3 := RemoveTrainer(s2, email).store;
    assert s3.users == [] && s3.accepted[0].record.profile.email == email;
  }

  /** Confirming the e-mail of the oldest pending application moves exactly
      that application to the end of `trainers`. */
  lemma ConfirmHead(s: Store, email: string, now: Time)
    requires s.pending != [] && s.pending[0].profile.email == email
    ensures var r := Confirm(s, email, now).store;
      && r.pending == s.pending[1..]
      && r.accepted == s.accepted + [AcceptedTrainer(s.pending[0].(status := Accepted), now)]
      && (s.users == [] ==> r.users == [])
  {
    assert AppliedAs(email)(s.pending[0]);
  }

  /** Demoting the e-mail of the oldest trainer record deletes exactly that record. */
  lemma RemoveHead(s: Store, email: string)
    requires email != ""
    requires s.accepted != [] && s.accepted[0].record.profile.email == email
    ensures var r := RemoveTrainer(s, email).store;
      && r.accepted == s.accepted[1..]
      && (s.users == [] ==> r.users == [])
  {
    assert AcceptedAs(email)(s.accepted[0]);
  }

  /** Nothing stops a rejected member from applying again, so an e-mail can
      be in `become-a-trainer` and `trainer-rejections` at the same time: the
      three collections are not kept mutually exclusive. */
  lemma ReapplyAfterRejection(profile: Profile, now: Time)
    ensures var s0 := Store([], [], [], [], [], [], [], [], 0);
      var s1 := Apply(s0, profile, now).store;
      var s2 := Reject(s1, profile.email, "", now).store;
      var s3 := Apply(s2, profile, now).store;
      Count(s3.pending, AppliedAs(profile.email)) == 1 && Count(s3.rejected, RejectedAs(profile.email)) == 1
  {
    var s0 := Store([], [], [], [], [], [], [], [], 0);
    var s1 := Apply(s0, profile, now).store;
    assert Count(s1.pending, AppliedAs(profile.email)) == 1;
  }

  /** The `status` of a row of the application-status report. */
  datatype ReportStatus = ReportPending | ReportRejected | ReportApproved

  /** A row of `GET /trainer-application-status`; only rejected rows carry `feedback`. */
  datatype StatusEntry = StatusEntry(fullName: string, email: string, status: ReportStatus, feedback: Option<string>)

  /** A pending row: `fullName || name || 'N/A'`. */
  function PendingEntry(a: Application): (e: StatusEntry)
    ensures FirstSet(e.fullName, a.profile.fullName, a.profile.name, "N/A")
    ensures e.email == a.profile.email && e.status == ReportPending && e.feedback.None?
  {
    StatusEntry(Or(Or(a.profile.fullName, a.profile.name), "N/A"), a.profile.email, ReportPending, None)
  }

  /** A rejected row: `fullName || name || 'N/A'` and `feedback || ''`. */
  function RejectedEntry(x: Rejection): (e: StatusEntry)
    ensures FirstSet(e.fullName, x.record.profile.fullName, x.record.profile.name, "N/A")
    ensures e.email == x.record.profile.email && e.status == ReportRejected
    ensures e.feedback == Some(x.feedback)
  {
    StatusEntry(Or(Or(x.record.profile.fullName, x.record.profile.name), "N/A"), x.record.profile.email,
                ReportRejected, Some(Or(x.feedback, "")))
  }

  /** An approved row: `displayName || fullName || name || 'N/A'`. */
  function ApprovedEntry(u: User): (e: StatusEntry)
    ensures FirstSetOfThree(e.fullName, u.displayName, u.fullName, u.name, "N/A")
    ensures e.email == u.email && e.status == ReportApproved && e.feedback.None?
  {
    StatusEntry(Or(Or(Or(u.displayName, u.fullName), u.name), "N/A"), u.email, ReportApproved, None)
  }

  function IsTrainer(u: User): bool
  {
    u.role == Trainer
  }

  /** Some user with this e-mail has the role 'trainer'. */
  predicate Promoted(users: seq<User>, email: string)
  {
    exists j :: 0 <= j < |users| && users[j].email == email && users[j].role == Trainer
  }

  /** `GET /trainer-application-status`: pending applications, then
      rejections, then users whose role is 'trainer', each in collection
      order, with no de-duplication across the three. */
  function StatusReport(s: Store): (r: seq<StatusEntry>)
    ensures |r| == |s.pending| + |s.rejected| + Count(s.users, IsTrainer)
    ensures forall k :: 0 <= k < |r| ==> r[k].fullName != ""
    ensures forall k :: 0 <= k < |r| ==> (r[k].status == ReportPending <==> k < |s.pending|)
    ensures forall k :: 0 <= k < |r| ==> (r[k].feedback.Some? <==> r[k].status == ReportRejected)
    ensures forall k :: 0 <= k < |s.pending| ==> r[k].email == s.pending[k].profile.email
    ensures forall k :: 0 <= k < |s.rejected| ==>
              && r[|s.pending| + k].status == ReportRejected
              && r[|s.pending| + k].email == s.rejected[k].record.profile.email
              && r[|s.pending| + k].feedback == Some(s.rejected[k].feedback)
    ensures forall k :: |s.pending| + |s.rejected| <= k < |r| ==>
              r[k].status == ReportApproved && Promoted(s.users, r[k].email)
    ensures forall k :: 0 <= k < |s.pending| ==>
              FirstSet(r[k].fullName, s.pending[k].profile.fullName, s.pending[k].profile.name, "N/A")
    ensures forall k :: 0 <= k < |s.rejected| ==>
              FirstSet(r[|s.pending| + k].fullName,
                       s.rejected[k].record.profile.fullName, s.rejected[k].record.profile.name, "N/A")
    ensures forall k :: 0 <= k < |Filter(s.users, IsTrainer)| ==>
              && r[|s.pending| + |s.rejected| + k].email == Filter(s.users, IsTrainer)[k].email
              && FirstSetOfThree(r[|s.pending| + |s.rejected| + k].fullName, Filter(s.users, IsTrainer)[k].displayName,
                                 Filter(s.users, IsTrainer)[k].fullName, Filter(s.users, IsTrainer)[k].name, "N/A")
  {
    var trainers := Filter(s.users, IsTrainer);
    MapConcat3(s.pending, PendingEntry, s.rejected, RejectedEntry, trainers, ApprovedEntry);
    Map(s.pending, PendingEntry) + Map(s.rejected, RejectedEntry) + Map(trainers, ApprovedEntry)
  }

  /** Where each position of three mapped sequences laid end to end comes from. */
  lemma MapConcat3<A, B, C, E>(xs: seq<A>, f: A -> E, ys: seq<B>, g: B -> E, zs: seq<C>, h: C -> E)
    ensures var r := Map(xs, f) + Map(ys, g) + Map(zs, h);
      && |r| == |xs| + |ys| + |zs|
      && (forall i :: 0 <= i < |xs| ==> r[i] == f(xs[i]))
      && (forall i :: |xs| <= i < |xs| + |ys| ==> r[i] == g(ys[i - |xs|]))
      && (forall i :: |xs| + |ys| <= i < |r| ==> r[i] == h(zs[i - |xs| - |ys|]))
  {
  }


  /** After a confirmation, a registered member with the e-mail shows up as
      'Approved' in the status report. */
  lemma ConfirmedIsApproved(s: Store, email: string, now: Time)
    requires Count(s.pending, AppliedAs(email)) > 0
    requires Registered(s.users, email)
    ensures var s' := Confirm(s, email, now).store;
      exists k :: 0 <= k < |StatusReport(s')| && StatusReport(s')[k].email == email
        && StatusReport(s')[k].status == ReportApproved
  {
    var s' := Confirm(s, email, now).store;
    assert RoleSet(s.users, s'.users, email, Trainer);
    var j :| 0 <= j < |s'.users| && s'.users[j].email == email && s'.users[j].role == Trainer
             && NoneBefore(s.users, email, j);
    TrainerIsReported(s', j);
  }

  /** Every user whose role is 'trainer' has an 'Approved' row in the report. */
  lemma TrainerIsReported(s: Store, j: nat)
    requires j < |s.users| && s.users[j].role == Trainer
    ensures exists k ::
      && 0 <= k < |StatusReport(s)|
      && StatusReport(s)[k].email == s.users[j].email
      && StatusReport(s)[k].status == ReportApproved
  {
    var trainers := Filter(s.users, IsTrainer);
    FilterKeeps(s.users, IsTrainer, j);
    var m :| 0 <= m < |trainers| && trainers[m] == s.users[j];
    var a := Map(s.pending, PendingEntry);
    var b := Map(s.rejected, RejectedEntry);
    var c := Map(trainers, ApprovedEntry);
    AppendIndex(a + b, c, m);
    assert StatusReport(s) == (a + b) + c;
    assert StatusReport(s)[|a + b| + m] == ApprovedEntry(s.users[j]);
  }
}
