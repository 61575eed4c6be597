/**
  The `send:reminder` console command of the WhatsApp assistant: every run
  selects the tasks whose `reminder_at` is the current instant and notifies
  each task's owner, either with the re-engagement template (owner silent for
  at least 24 hours) or with a free-text reminder carrying the description.
 */
module ReminderSweep {
  import opened Wrappers

  type UserId = nat
  type TaskId = nat

  /** An instant, in whole seconds since an arbitrary epoch. */
  type Instant = int

  /** The fields of a user row that the sweep reads. */
  datatype User = User(lastWhatsappAt: Option<Instant>)

  /** The fields of a task row that the sweep reads. */
  datatype Task = Task(id: TaskId, owner: UserId, description: string, reminderAt: Option<Instant>)

  /** The two notifications the sweep can send. The body of the re-engagement
      template is not part of this model, so `Reminder` carries nothing. */
  datatype Msg = Reminder | Generic(text: string)

  /** One call to `notify` on a user. */
  datatype Notification = Notification(to: UserId, msg: Msg)

  /** The errors that abort the loop: a task whose owner row is missing, an
      owner whose `last_whatsapp_at` is NULL, and a send through the channel
      that fails (it carries the notification that was being sent). */
  datatype Fault =
    | MissingOwner(task: TaskId)
    | NoLastWhatsapp(task: TaskId, user: UserId)
    | SendFailed(task: TaskId, attempted: Notification)

  /** What one run does: the notifications sent, in order, and the error that
      ended the run early, if any. */
  datatype Outcome = Outcome(sent: seq<Notification>, fault: Option<Fault>)

  const SecondsPerHour: int := 3600
  const ReengageAfterHours: int := 24
  const ReminderPrefix: string := "Lembrete de tarefa: "

  /** SQL's three truth values. */
  datatype SqlTruth = SqlTrue | SqlFalse | SqlUnknown

  /** SQL `column = value`: a NULL column compares as UNKNOWN. */
  function SqlEquals(column: Option<Instant>, value: Instant): SqlTruth {
    match column
    case None => SqlUnknown
    case Some(c) => if c == value then SqlTrue else SqlFalse
  }

  /** A task takes part in the run at `now` exactly when its reminder instant is
      `now`. A `WHERE` clause keeps the rows whose condition is TRUE, so a NULL
      reminder instant never matches. */
  predicate IsDue(t: Task, now: Instant): (r: bool)
    ensures r <==> SqlEquals(t.reminderAt, now) == SqlTrue
  {
    t.reminderAt == Some(now)
  }

  /** Carbon 3's `diffInHours`: the signed difference in hours, as a fraction. */
  function HoursBetween(from: Instant, to: Instant): real {
    (to - from) as real / SecondsPerHour as real
  }

  /** The owner has not written for at least 24 hours when checked at `at`. Over
      whole seconds this is a comparison of elapsed seconds, and a contact time in
      the future counts as recent. */
  predicate SilentForADay(last: Instant, at: Instant): (r: bool)
    ensures r <==> HoursBetween(last, at) >= ReengageAfterHours as real
  {
    at - last >= ReengageAfterHours * SecondsPerHour
  }

  /** Both dereferences of the 24-hour test succeed: the owner row exists and its
      last contact time is not NULL. */
  predicate Deliverable(t: Task, users: map<UserId, User>) {
    t.owner in users && users[t.owner].lastWhatsappAt.Some?
  }

  /** The task can be decided and its send goes through. */
  predicate Completes(t: Task, users: map<UserId, User>, failing: set<TaskId>) {
    Deliverable(t, users) && t.id !in failing
  }

  /** The tasks selected at `now`, in the order they are listed. The contract says
      which tasks are kept; `DueAppend` and `DueInsert` pin their order and
      multiplicity. */
  function Due(tasks: seq<Task>, now: Instant): (r: seq<Task>)
    ensures |r| <= |tasks|
    ensures forall t :: t in r ==> t in tasks && IsDue(t, now)
    ensures forall t :: t in tasks && IsDue(t, now) ==> t in r
  {
    if tasks == [] then []
    else
      var rest := Due(tasks[1..], now);
      if IsDue(tasks[0], now) then [tasks[0]] + rest else rest
  }

  /** The free-text reminder for a task description. */
  function ReminderText(description: string): (r: string)
    ensures |r| == |ReminderPrefix| + |description|
    ensures r[..|ReminderPrefix|] == ReminderPrefix
    ensures r[|ReminderPrefix|..] == description
  {
    ReminderPrefix + description
  }

  /** Recovers the description from a free-text reminder; `None` for any other text. */
  function DescriptionOf(text: string): (r: Option<string>)
    ensures r.Some? <==> |ReminderPrefix| <= |text| && text[..|ReminderPrefix|] == ReminderPrefix
    ensures r.Some? ==> ReminderPrefix + r.value == text
  {
    if |ReminderPrefix| <= |text| && text[..|ReminderPrefix|] == ReminderPrefix then
      assert text == text[..|ReminderPrefix|] + text[|ReminderPrefix|..];
      Some(text[|ReminderPrefix|..])
    else None
  }

  /** The notification for a task whose owner last wrote at `last`, checked at `at`. */
  function Decide(t: Task, last: Instant, at: Instant): (n: Notification)
    ensures n.to == t.owner
    ensures n.msg == Reminder <==> HoursBetween(last, at) >= 24.0
    ensures n.msg.Generic? ==> DescriptionOf(n.msg.text) == Some(t.description)
  {
    if SilentForADay(last, at) then Notification(t.owner, Reminder)
    else
      var text := ReminderText(t.description);
      assert text[..|ReminderPrefix|] == ReminderPrefix;
      Notification(t.owner, Generic(text))
  }

  /** `n` is the right notification for task `t` when its owner last wrote at
      `last` and the test is made at `at`: addressed to the owner, the template
      exactly when Carbon's hour difference is at least 24, otherwise the
      free-text reminder for the description. */
  predicate Fits(n: Notification, t: Task, last: Instant, at: Instant) {
    && n.to == t.owner
    && (n.msg == Reminder <==> HoursBetween(last, at) >= 24.0)
    && (n.msg.Generic? ==> n.msg.text == ReminderText(t.description))
  }

  /** What a single selected task does when checked at `at`: the notification it
      sends, or the error it raises. `sendFails` says whether the channel rejects
      the send. */
  function Notify(t: Task, users: map<UserId, User>, at: Instant, sendFails: bool): (r: Result<Notification, Fault>)
    ensures r.Ok? <==> Deliverable(t, users) && !sendFails
    ensures r.Ok? ==> Fits(r.value, t, users[t.owner].lastWhatsappAt.value, at)
    ensures r.Err? ==> r.error.task == t.id
    ensures r.Err? && r.error.SendFailed? <==> Deliverable(t, users) && sendFails
    ensures r.Err? && r.error.SendFailed? ==> Fits(r.error.attempted, t, users[t.owner].lastWhatsappAt.value, at)
    ensures r.Err? && r.error.MissingOwner? <==> t.owner !in users
    ensures r.Err? && r.error.NoLastWhatsapp? ==> r.error.user == t.owner
  {
    if t.owner !in users then Err(MissingOwner(t.id))
    else match users[t.owner].lastWhatsappAt
      case None => Err(NoLastWhatsapp(t.id, t.owner))
      case Some(last) =>
        var n := Decide(t, last, at);
        DecideFits(t, last, at);
        if sendFails then Err(SendFailed(t.id, n)) else Ok(n)
  }

  /** `Decide` chooses the notification that `Fits`, and it is the only one. */
  lemma DecideFits(t: Task, last: Instant, at: Instant)
    ensures Fits(Decide(t, last, at), t, last, at)
    ensures forall n :: Fits(n, t, last, at) ==> n == Decide(t, last, at)
  {
    var d := Decide(t, last, at);
    if d.msg.Generic? {
      DescriptionOfInverse(d.msg.text, t.description);
    }
  }

  /** Any text `DescriptionOf` accepts is the reminder text of what it returns. */
  lemma DescriptionOfInverse(text: string, description: string)
    requires DescriptionOf(text) == Some(description)
    ensures text == ReminderText(description)
  {
  }

  /** The outcome of the `i`-th selected task, checked at the `i`-th clock reading. */
  function NotifyAt(due: seq<Task>, i: nat, users: map<UserId, User>, checks: seq<Instant>, failing: set<TaskId>): Result<Notification, Fault>
    requires i < |due| == |checks|
  {
    Notify(due[i], users, checks[i], due[i].id in failing)
  }

  /** The loop over the selected tasks: one notification per task, in order,
      until the first task that raises an error; that error ends the run.
      `checks[i]` is the clock reading the `i`-th task's 24-hour test sees. */
  function Deliver(due: seq<Task>, users: map<UserId, User>, checks: seq<Instant>, failing: set<TaskId>): (r: Outcome)
    requires |checks| == |due|
    ensures |r.sent| <= |due|
    ensures forall i :: 0 <= i < |r.sent| ==> NotifyAt(due, i, users, checks, failing) == Ok(r.sent[i])
    ensures r.fault.None? <==> |r.sent| == |due|
    ensures r.fault.Some? ==> NotifyAt(due, |r.sent|, users, checks, failing) == Err(r.fault.value)
  {
    if due == [] then Outcome([], None)
    else match Notify(due[0], users, checks[0], due[0].id in failing)
      case Err(f) => Outcome([], Some(f))
      case Ok(n) =>
        var rest := Deliver(due[1..], users, checks[1..], failing);
        Outcome([n] + rest.sent, rest.fault)
  }

  /** One run of `send:reminder`: the query at instant `now` over the task and
      user tables, then the loop, whose `i`-th 24-hour test reads the clock as
      `checks[i]`; the sends of the tasks in `failing` are rejected by the channel. */
  function Sweep(tasks: seq<Task>, users: map<UserId, User>, now: Instant, checks: seq<Instant>, failing: set<TaskId>): (r: Outcome)
    requires |checks| == |Due(tasks, now)|
    ensures |r.sent| <= |Due(tasks, now)|
    ensures r.fault.None? <==> (forall t :: t in tasks && IsDue(t, now) ==> Completes(t, users, failing))
    ensures forall n :: n in r.sent ==>
      exists t, at :: t in tasks && IsDue(t, now) && at in checks && Notify(t, users, at, false) == Ok(n)
  {
    var due := Due(tasks, now);
    var r := Deliver(due, users, checks, failing);
    assert r.fault.None? ==> forall t :: t in due ==> Completes(t, users, failing) by {
      if r.fault.None? {
        forall t | t in due ensures Completes(t, users, failing) {
          var i :| 0 <= i < |due| && due[i] == t;
          assert NotifyAt(due, i, users, checks, failing).Ok?;
        }
      }
    }
    assert r.fault.Some? ==> !Completes(due[|r.sent|], users, failing) by {
      if r.fault.Some? {
        assert NotifyAt(due, |r.sent|, users, checks, failing).Err?;
      }
    }
    forall n | n in r.sent
      ensures exists t, at :: t in tasks && IsDue(t, now) && at in checks && Notify(t, users, at, false) == Ok(n)
    {
      var i :| 0 <= i < |r.sent| && r.sent[i] == n;
      assert NotifyAt(due, i, users, checks, failing) == Ok(n);
      assert Notify(due[i], users, checks[i], false) == Ok(n);
      assert due[i] in due && checks[i] in checks;
    }
    r
  }

  /** One step of `Deliver` from position `i` of the selected tasks. */
  lemma DeliverStep(due: seq<Task>, i: nat, users: map<UserId, User>, checks: seq<Instant>, failing: set<TaskId>)
    requires i < |due| == |checks|
    ensures NotifyAt(due, i, users, checks, failing).Err? ==>
      Deliver(due[i..], users, checks[i..], failing) == Outcome([], Some(NotifyAt(due, i, users, checks, failing).error))
    ensures NotifyAt(due, i, users, checks, failing).Ok? ==>
      Deliver(due[i..], users, checks[i..], failing).sent
        == [NotifyAt(due, i, users, checks, failing).value] + Deliver(due[i + 1..], users, checks[i + 1..], failing).sent
    ensures NotifyAt(due, i, users, checks, failing).Ok? ==>
      Deliver(due[i..], users, checks[i..], failing).fault == Deliver(due[i + 1..], users, checks[i + 1..], failing).fault
  {
    assert due[i..][0] == due[i] && checks[i..][0] == checks[i];
    assert due[i..][1..] == due[i + 1..];
    assert checks[i..][1..] == checks[i + 1..];
  }

  /** The `foreach` of the command, written as a loop that reads the `i`-th clock
      reading for the `i`-th task; it computes the same run as `Sweep`. */
  method RunSweep(tasks: seq<Task>, users: map<UserId, User>, now: Instant, checks: seq<Instant>, failing: set<TaskId>)
    returns (sent: seq<Notification>, fault: Option<Fault>)
    requires |checks| == |Due(tasks, now)|
    ensures Outcome(sent, fault) == Sweep(tasks, users, now, checks, failing)
  {
    var due := Due(tasks, now);
    ghost var whole := Deliver(due, users, checks, failing);
    assert Sweep(tasks, users, now, checks, failing) == whole;
    sent := [];
    fault := None;
    var i := 0;
    assert due[0..] == due && checks[0..] == checks;
    while i < |due|
      invariant 0 <= i <= |due|
      invariant whole.sent == sent + Deliver(due[i..], users, checks[i..], failing).sent
      invariant whole.fault == Deliver(due[i..], users, checks[i..], failing).fault
    {
      DeliverStep(due, i, users, checks, failing);
      var step := NotifyAt(due, i, users, checks, failing);
      if step.Err? {
        assert sent + [] == sent;
        fault := Some(step.error);
        return;
      }
      ghost var rest := Deliver(due[i + 1..], users, checks[i + 1..], failing).sent;
      assert sent + ([step.value] + rest) == (sent + [step.value]) + rest;
      sent := sent + [step.value];
      i := i + 1;
    }
    assert due[i..] == [] && sent + [] == sent;
  }
}
