/** The in-memory stand-in for the `Fitness_tracker_user` database: one
    sequence per collection, in natural (insertion) order. Object ids come
    from a counter, and timestamps are opaque clock values that the caller
    passes in. */
module Store {
  import opened Wrappers
  import opened Http

  type Id = nat
  type Time = nat

  datatype Role = Member | Trainer

  /** A document of `users`. Missing optional strings are "". */
  datatype User = User(
    id: Id,
    email: string,
    role: Role,
    displayName: string,
    name: string,
    fullName: string,
    photoURL: string,
    active: bool,
    createdAt: Time,
    updatedAt: Option<Time>)

  /** The body a member submits when applying to become a trainer (only the
      fields some handler reads). */
  datatype Profile = Profile(
    email: string,
    fullName: string,
    name: string,
    profileImage: string,
    skills: seq<string>,
    availableDays: seq<string>,
    availableTime: string)

  /** The `status` string of an application record: 'pending' or 'accepted'. */
  datatype AppStatus = Pending | Accepted

  /** A document of `become-a-trainer`; copied whole, `_id` included, into
      `trainers` or `trainer-rejections`. */
  datatype Application = Application(id: Id, profile: Profile, status: AppStatus, appliedAt: Time)

  /** A document of `trainers`: the application with `status: 'accepted'`. */
  datatype AcceptedTrainer = AcceptedTrainer(record: Application, acceptedAt: Time)

  /** A document of `trainer-rejections`. */
  datatype Rejection = Rejection(record: Application, feedback: string, rejectedAt: Time)

  /** A document of `newsletter`. */
  datatype Subscriber = Subscriber(id: Id, name: string, email: string, subscribedAt: Time)

  /** A document of `classes`. */
  datatype Class = Class(id: Id, name: string, image: string, details: string, createdAt: Time, bookings: nat)

  /** A document of `forumPosts`. The vote arrays come from the posted body
      and are afterwards only written with `$addToSet` and `$pull`; they are
      held as sets, so a repeated entry in a posted body is not kept. */
  datatype Post = Post(
    id: Id,
    title: string,
    content: string,
    authorEmail: string,
    createdAt: Time,
    upvotes: set<string>,
    downvotes: set<string>)

  /** A document of `trainer-slots`. */
  datatype Slot = Slot(
    id: Id,
    trainerEmail: string,
    trainerId: Id,
    day: string,
    time: string,
    package: string,
    isBooked: bool,
    bookedBy: Option<string>,
    createdAt: Time)

  datatype Store = Store(
    users: seq<User>,
    pending: seq<Application>,
    accepted: seq<AcceptedTrainer>,
    rejected: seq<Rejection>,
    subscribers: seq<Subscriber>,
    classes: seq<Class>,
    posts: seq<Post>,
    slots: seq<Slot>,
    nextId: Id)

  /** A route parameter or body field handed to `new ObjectId(...)`, which
      throws on a malformed string. */
  datatype IdParam = Malformed | Valid(id: Id)

  /** The `insertedId` a handler sends back after `insertOne`. */
  datatype Inserted = Inserted(insertedId: Id)

  /** A handler that writes: the store afterwards and the reply sent. */
  datatype Step<T> = Step(store: Store, response: Response<T>)

  /** Every id in `xs` was issued before `next`, and no two are equal. */
  predicate FreshIds<T>(xs: seq<T>, id: T -> Id, next: Id)
  {
    && (forall i :: 0 <= i < |xs| ==> id(xs[i]) < next)
    && (forall i, j :: 0 <= i < j < |xs| ==> id(xs[i]) != id(xs[j]))
  }
}
