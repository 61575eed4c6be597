/** Properties of one run of the reminder sweep, and of runs at different instants. */
module ReminderSweepProperties {
  import opened Wrappers
  import opened ReminderSweep

  /** Selection distributes over concatenation: it keeps the due tasks and only
      them, in their listed order. */
  lemma {:induction false} DueAppend(a: seq<Task>, b: seq<Task>, now: Instant)
    ensures Due(a + b, now) == Due(a, now) + Due(b, now)
  {
    if a == [] {
      assert a + b == b;
    } else {
      assert (a + b)[0] == a[0];
      assert (a + b)[1..] == a[1..] + b;
      DueAppend(a[1..], b, now);
    }
  }

  /** Selection keeps a task exactly when it is due, at its listed position. */
  lemma DueInsert(a: seq<Task>, t: Task, b: seq<Task>, now: Instant)
    ensures Due(a + [t] + b, now) == Due(a, now) + (if IsDue(t, now) then [t] else []) + Due(b, now)
  {
    var kept := if IsDue(t, now) then [t] else [];
    assert Due([t], now) == kept by {
      assert [t][1..] == [];
    }
    DueAppend(a, [t], now);
    assert Due(a + [t], now) == Due(a, now) + kept;
    DueAppend(a + [t], b, now);
  }

  /** Inserting a task whose reminder instant is not `now` changes nothing in the run. */
  lemma SweepIgnoresUndue(a: seq<Task>, t: Task, b: seq<Task>, users: map<UserId, User>, now: Instant,
                          checks: seq<Instant>, failing: set<TaskId>)
    requires !IsDue(t, now)
    requires |checks| == |Due(a + b, now)|
    ensures |checks| == |Due(a + [t] + b, now)|
    ensures Sweep(a + [t] + b, users, now, checks, failing) == Sweep(a + b, users, now, checks, failing)
  {
    DueInsert(a, t, b, now);
    DueAppend(a, b, now);
    assert Due(a + [t] + b, now) == Due(a + b, now);
  }

  /** Clock readings that start no earlier than the query and never go back. */
  predicate ClockFrom(now: Instant, checks: seq<Instant>) {
    && (forall i :: 0 <= i < |checks| ==> now <= checks[i])
    && (forall i, j :: 0 <= i <= j < |checks| ==> checks[i] <= checks[j])
  }

  /** When every selected task can be decided and sent, each one yields exactly one
      notification, in selection order, addressed to its owner: the template when
      24 hours of silence have passed at its own check, the free-text reminder
      otherwise. */
  lemma SweepOnePerDueTask(tasks: seq<Task>, users: map<UserId, User>, now: Instant,
                           checks: seq<Instant>, failing: set<TaskId>)
    requires |checks| == |Due(tasks, now)|
    requires forall t :: t in tasks && IsDue(t, now) ==> Completes(t, users, failing)
    ensures var due := Due(tasks, now);
      var r := Sweep(tasks, users, now, checks, failing);
      && r.fault == None
      && |r.sent| == |due|
      && forall i :: 0 <= i < |due| ==>
        && r.sent[i].to == due[i].owner
        && (SilentForADay(users[due[i].owner].lastWhatsappAt.value, checks[i]) ==> r.sent[i].msg == Reminder)
        && (!SilentForADay(users[due[i].owner].lastWhatsappAt.value, checks[i]) ==>
              r.sent[i].msg == Generic(ReminderText(due[i].description)))
  {
    var due := Due(tasks, now);
    var r := Sweep(tasks, users, now, checks, failing);
    forall i | 0 <= i < |due|
      ensures r.sent[i].to == due[i].owner
      ensures !SilentForADay(users[due[i].owner].lastWhatsappAt.value, checks[i]) ==>
        r.sent[i].msg == Generic(ReminderText(due[i].description))
    {
      assert due[i] in due;
      assert NotifyAt(due, i, users, checks, failing) == Ok(r.sent[i]);
      if !SilentForADay(users[due[i].owner].lastWhatsappAt.value, checks[i]) {
        DescriptionOfInverse(r.sent[i].msg.text, due[i].description);
      }
    }
  }

  /** A task that cannot be decided, or whose send fails, stops the run: exactly the
      selected tasks before the first such task have been notified, each with its own
      notification, and that task's error is the run's error. A failed send reports
      the notification it was sending. */
  lemma SweepStopsAtFirstFault(tasks: seq<Task>, users: map<UserId, User>, now: Instant,
                               checks: seq<Instant>, failing: set<TaskId>, k: nat)
    requires |checks| == |Due(tasks, now)|
    requires k < |Due(tasks, now)|
    requires forall i :: 0 <= i < k ==> Completes(Due(tasks, now)[i], users, failing)
    requires !Completes(Due(tasks, now)[k], users, failing)
    ensures |Sweep(tasks, users, now, checks, failing).sent| == k
    ensures forall i :: 0 <= i < k ==>
      Notify(Due(tasks, now)[i], users, checks[i], false) == Ok(Sweep(tasks, users, now, checks, failing).sent[i])
    ensures Sweep(tasks, users, now, checks, failing).fault == Some(NotifyAt(Due(tasks, now), k, users, checks, failing).error)
    ensures Deliverable(Due(tasks, now)[k], users) ==>
      Sweep(tasks, users, now, checks, failing).fault
        == Some(SendFailed(Due(tasks, now)[k].id,
                           Decide(Due(tasks, now)[k], users[Due(tasks, now)[k].owner].lastWhatsappAt.value, checks[k])))
  {
    var due := Due(tasks, now);
    var r := Sweep(tasks, users, now, checks, failing);
    assert NotifyAt(due, k, users, checks, failing).Err?;
    forall i | 0 <= i < k
      ensures Notify(due[i], users, checks[i], false) == Ok(r.sent[i])
    {
      assert NotifyAt(due, i, users, checks, failing) == Ok(r.sent[i]);
    }
  }

  /** The free-text reminder can be read back: stripping the prefix yields the description. */
  lemma ReminderTextRoundTrip(description: string)
    ensures DescriptionOf(ReminderText(description)) == Some(description)
  {
  }

  /** Distinct descriptions give distinct reminder texts. */
  lemma ReminderTextInjective(d1: string, d2: string)
    ensures ReminderText(d1) == ReminderText(d2) ==> d1 == d2
  {
    if ReminderText(d1) == ReminderText(d2) {
      ReminderTextRoundTrip(d1);
      ReminderTextRoundTrip(d2);
    }
  }

  /** The comparison is `>=`: exactly 24 hours of silence takes the template
      branch, one second less takes the free-text branch. */
  lemma ThresholdBoundary(t: Task, at: Instant)
    ensures Notify(t, map[t.owner := User(Some(at - 86400))], at, false) == Ok(Notification(t.owner, Reminder))
    ensures Notify(t, map[t.owner := User(Some(at - 86399))], at, false)
         == Ok(Notification(t.owner, Generic(ReminderText(t.description))))
  {
  }

  /** Carbon 2's `diffInHours`: the absolute difference in whole hours, truncated. */
  function Carbon2Hours(from: Instant, to: Instant): nat {
    (if to >= from then to - from else from - to) / SecondsPerHour
  }

  /** Under Carbon 2 the 24-hour test decides as the model does unless the contact
      time lies 24 hours or more after the check; then Carbon 2 takes the
      template branch and the model the free-text one. */
  lemma Carbon2AgreesUnlessFarFuture(last: Instant, at: Instant)
    ensures last - at < 86400 ==> (Carbon2Hours(last, at) >= 24 <==> SilentForADay(last, at))
    ensures last - at >= 86400 ==> Carbon2Hours(last, at) >= 24 && !SilentForADay(last, at)
  {
  }

  /** The 24-hour test is monotone in the instant it is made at: with the same last
      contact time, a template decision stays a template decision at any later
      instant, and a free-text decision was a free-text decision at any earlier one. */
  lemma DecisionMonotoneInTime(t: Task, last: Instant, at: Instant, later: Instant)
    requires at <= later
    ensures Decide(t, last, at).msg == Reminder ==> Decide(t, last, later).msg == Reminder
    ensures Decide(t, last, later).msg.Generic? ==> Decide(t, last, at).msg.Generic?
  {
  }

  /** The loop reads the clock anew for every task and never writes
      `last_whatsapp_at`, so within one run, once an owner has been sent the
      template, every later notification to that owner is the template; and a
      free-text notification means every earlier one to that owner was free text. */
  lemma TemplateSticksWithinRun(tasks: seq<Task>, users: map<UserId, User>, now: Instant,
                                checks: seq<Instant>, failing: set<TaskId>, i: nat, j: nat)
    requires |checks| == |Due(tasks, now)| && ClockFrom(now, checks)
    requires i <= j < |Sweep(tasks, users, now, checks, failing).sent|
    requires Sweep(tasks, users, now, checks, failing).sent[i].to == Sweep(tasks, users, now, checks, failing).sent[j].to
    ensures Sweep(tasks, users, now, checks, failing).sent[i].msg == Reminder ==>
      Sweep(tasks, users, now, checks, failing).sent[j].msg == Reminder
    ensures Sweep(tasks, users, now, checks, failing).sent[j].msg.Generic? ==>
      Sweep(tasks, users, now, checks, failing).sent[i].msg.Generic?
  {
    var due := Due(tasks, now);
    var r := Sweep(tasks, users, now, checks, failing);
    assert NotifyAt(due, i, users, checks, failing) == Ok(r.sent[i]);
    assert NotifyAt(due, j, users, checks, failing) == Ok(r.sent[j]);
    var last := users[r.sent[i].to].lastWhatsappAt.value;
    assert r.sent[i] == Decide(due[i], last, checks[i]);
    assert r.sent[j] == Decide(due[j], last, checks[j]);
    DecisionMonotoneInTime(due[i], last, checks[i], checks[j]);
  }

  /** One run can send the same owner both kinds: two due tasks, an owner silent for
      one second less than 24 hours at the query, and the second check one second
      after the first. */
  lemma MixedKindsInOneRun(now: Instant)
    ensures Sweep([Task(1, 7, "A", Some(now)), Task(2, 7, "B", Some(now))],
                  map[7 := User(Some(now - 86399))], now, [now, now + 1], {})
         == Outcome([Notification(7, Generic(ReminderText("A"))), Notification(7, Reminder)], None)
  {
    var t1 := Task(1, 7, "A", Some(now));
    var t2 := Task(2, 7, "B", Some(now));
    assert [t1, t2][1..] == [t2] && [now, now + 1][1..] == [now + 1];
    assert Due([t1, t2], now) == [t1, t2];
  }

  /** The run reads only the rows of the owners of due tasks: any change to other
      users leaves it unchanged. */
  lemma SweepReadsOnlyDueOwners(tasks: seq<Task>, users: map<UserId, User>, users': map<UserId, User>, now: Instant,
                                checks: seq<Instant>, failing: set<TaskId>)
    requires |checks| == |Due(tasks, now)|
    requires forall t :: t in tasks && IsDue(t, now) ==>
      (t.owner in users <==> t.owner in users') && (t.owner in users ==> users[t.owner] == users'[t.owner])
    ensures Sweep(tasks, users, now, checks, failing) == Sweep(tasks, users', now, checks, failing)
  {
    DeliverAgrees(Due(tasks, now), users, users', checks, failing);
  }

  /** `Deliver` agrees on two user tables that agree on the owners of the given tasks. */
  lemma {:induction false} DeliverAgrees(due: seq<Task>, users: map<UserId, User>, users': map<UserId, User>,
                                         checks: seq<Instant>, failing: set<TaskId>)
    requires |checks| == |due|
    requires forall t :: t in due ==>
      (t.owner in users <==> t.owner in users') && (t.owner in users ==> users[t.owner] == users'[t.owner])
    ensures Deliver(due, users, checks, failing) == Deliver(due, users', checks, failing)
  {
    if due != [] {
      assert due[0] in due;
      assert Notify(due[0], users, checks[0], due[0].id in failing) == Notify(due[0], users', checks[0], due[0].id in failing);
      DeliverAgrees(due[1..], users, users', checks[1..], failing);
    }
  }

  /** A due task whose owner last wrote 30 hours ago gets the template and nothing else. */
  lemma ScenarioSilentThirtyHours(now: Instant)
    ensures Sweep([Task(1, 7, "Pagar conta", Some(now))], map[7 := User(Some(now - 30 * 3600))], now, [now], {})
         == Outcome([Notification(7, Reminder)], None)
  {
    var t := Task(1, 7, "Pagar conta", Some(now));
    assert Due([t], now) == [t];
  }

  /** A due task whose owner last wrote 2 hours ago gets one free-text reminder with its description. */
  lemma ScenarioRecentTwoHours(now: Instant)
    ensures Sweep([Task(1, 7, "Pagar conta", Some(now))], map[7 := User(Some(now - 2 * 3600))], now, [now], {})
         == Outcome([Notification(7, Generic("Lembrete de tarefa: Pagar conta"))], None)
  {
    var t := Task(1, 7, "Pagar conta", Some(now));
    assert Due([t], now) == [t];
    assert ReminderText("Pagar conta") == "Lembrete de tarefa: Pagar conta";
  }
}
