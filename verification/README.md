# Reminder sweep of the WhatsApp assistant

This project models the `send:reminder` console command of a Laravel
WhatsApp assistant (`routes/console.php`). The scheduler runs the command
once a minute. It loads the tasks whose `reminder_at` equals the current
instant, together with each task's owner. Each owner is notified once per
due task:

- the re-engagement template (`ReminderNotification`) if the owner's
  `last_whatsapp_at` is at least 24 hours old;
- otherwise, a free-text `GenericNotification` with the text
  `"Lembrete de tarefa: "` followed by the task description.

`GenericNotification` hands its string unchanged to the WhatsApp message as
its content (`app/Notifications/GenericNotification.php:19`, `:29-32`). The
model therefore carries that text directly in `Msg.Generic(text)`. The body
of `ReminderNotification` is not part of this model, so `Msg.Reminder`
carries nothing.

Layout:

- `wrappers.dfy`: module `Wrappers` has `Option` (a NULL column) and
  `Result`.
- `reminder_sweep.dfy`: module `ReminderSweep` has the rows the sweep reads
  (`Task`, `User`), the notifications (`Msg`, `Notification`), the errors
  that abort the run (`Fault`) and the run itself. `Sweep` is the pure
  function. `RunSweep` is the `foreach` loop written as a method, proved
  equal to `Sweep`.
- `reminder_sweep_properties.dfy`: module `ReminderSweepProperties` holds the
  lemmas about selection, ordering, the 24-hour branch, the message text,
  error behaviour and the clock.

Modelling decisions:

- Instants are whole seconds (`int`). The selection is plain equality
  `reminder_at == now`, compared to the second. There is no rounding to
  the minute.
- The clock is a parameter. The query reads it once, as `now`. The loop
  reads it again for each task's 24-hour test (`routes/console.php:16`),
  and that reading is `checks[i]` for the `i`-th selected task. `notify`
  sends synchronously (`GenericNotification` is not queued), so these
  readings drift by as long as the sends take. Drift can move a decision
  across the 24-hour line within one run (`MixedKindsInOneRun`).
- The code's test is `last_whatsapp_at->diffInHours(now()) >= 24`. The
  model assumes Carbon 3, where `diffInHours` is the signed, fractional hour
  difference (`HoursBetween`). Over whole seconds that test is exactly
  `at - last >= 24 * 3600`. A `last_whatsapp_at` in the future counts as
  recent. No `last <= now` precondition is needed.
- The loop has no `try`/`catch`. Three things throw inside it:
  - a task whose owner row is missing (`$task->user` is null);
  - an owner whose `last_whatsapp_at` is NULL;
  - a send that the channel rejects.

  Any of them ends the command. Notifications already sent stay sent, and
  the remaining tasks are not processed. The model returns
  `Outcome(sent, fault)` to show exactly this. Which sends fail is a
  parameter: the set `failing` of task ids.
- The query has no `ORDER BY`, so "selection order" is the order in which
  the task table is given to `Sweep`.
- The sweep only reads. It returns notifications and no new rows, so it
  writes no task or user field, and in particular it never writes
  `last_whatsapp_at`.

## Model

| member | source | states |
|---|---|---|
| ReminderSweep.IsDue | routes/console.php:12 | a task is selected exactly when SQL's three-valued `reminder_at = now` is TRUE, so a NULL `reminder_at`, which compares as UNKNOWN, is never selected |
| ReminderSweep.SilentForADay | routes/console.php:16 | the whole-second test `at - last >= 24*3600` holds exactly when Carbon 3's fractional hour difference from `last` to `at` is at least 24 |
| ReminderSweep.Due | routes/console.php:12 | the selected tasks are exactly the listed tasks whose `reminder_at` is `now`, and there are no more of them than tasks |
| ReminderSweep.ReminderText | routes/console.php:19 | the reminder text is the fixed prefix followed by the description, and its length is the sum of the two lengths |
| ReminderSweep.DescriptionOf | routes/console.php:19 | text is accepted exactly when it starts with the prefix; the accepted text is the prefix followed by what is returned |
| ReminderSweep.DecideFits | routes/console.php:16-20 | the notification `Decide` picks meets the 24-hour specification (`Fits`: to the owner, the template exactly at 24 hours or more, otherwise the exact reminder text), and no other notification meets it |
| ReminderSweep.Decide | routes/console.php:16-20 | the notification goes to the task's owner; it is the template exactly when Carbon's hour difference at the check is at least 24; otherwise it is text that reads back as the task description |
| ReminderSweep.Notify | routes/console.php:16-20 | a selected task sends exactly when `Deliverable` holds (the owner row exists and its `last_whatsapp_at` is not NULL) and the send succeeds; what is sent, or was being sent when the send failed, goes to the owner and is the template exactly when Carbon's hour difference at the check is at least 24, otherwise exactly `"Lembrete de tarefa: "` followed by the description; every error names its task; a send failure is reported exactly when the task was decidable but its send failed; a missing owner is reported exactly when the owner row is missing |
| ReminderSweep.Deliver | routes/console.php:14-23 | the loop sends one notification per task in order, each one being that task's own notification at its own clock reading; the run is error-free exactly when every task was notified; otherwise the error is the one raised by the first task not notified |
| ReminderSweep.Sweep | routes/console.php:11-24 | a run is error-free exactly when every due task can be decided and sent; every notification sent is the successful notification of a due task at one of the clock readings |
| ReminderSweep.RunSweep | routes/console.php:14-23 | the loop form of the command, which reads one clock reading per task and stops at the first error, sends the same notifications and reports the same error as `Sweep` |
| ReminderSweepProperties.DueAppend | routes/console.php:12 | selecting from two concatenated task lists gives the two selections concatenated, so the order is kept |
| ReminderSweepProperties.DueInsert | routes/console.php:12 | a task is kept at its own position when it is due and dropped otherwise |
| ReminderSweepProperties.SweepIgnoresUndue | routes/console.php:12 | adding a task whose `reminder_at` is not `now` anywhere in the table leaves the run unchanged |
| ReminderSweepProperties.SweepOnePerDueTask | routes/console.php:14-23 | when all due tasks can be decided and sent, the run has no error and sends exactly one notification per due task, in selection order, to its owner: the template after 24 hours of silence at that task's check, otherwise exactly `"Lembrete de tarefa: "` followed by the description |
| ReminderSweepProperties.SweepStopsAtFirstFault | routes/console.php:14-23 | if the k-th due task is the first that cannot be decided or sent, exactly k notifications are sent, each being its task's own notification, and the run's error is the k-th task's error; for a failed send, that error carries the notification being sent |
| ReminderSweepProperties.ReminderTextRoundTrip | routes/console.php:19 | removing the prefix from a reminder text gives back the description |
| ReminderSweep.DescriptionOfInverse | routes/console.php:19 | every text accepted by `DescriptionOf` is the reminder text of the description it returns |
| ReminderSweepProperties.ReminderTextInjective | routes/console.php:19 | different descriptions give different reminder texts |
| ReminderSweepProperties.ThresholdBoundary | routes/console.php:16 | exactly 24 hours of silence takes the template branch, and 24 hours minus one second takes the free-text branch (`>=`) |
| ReminderSweepProperties.Carbon2AgreesUnlessFarFuture | routes/console.php:16 | Carbon 2's whole-hour absolute difference reaches 24 exactly when the model's test holds, as long as the contact time is less than 24 hours after the check; at 24 hours or more after the check, Carbon 2 takes the template branch and the model does not |
| ReminderSweepProperties.DecisionMonotoneInTime | routes/console.php:16 | the threshold is monotone in time: with the same last contact time, a template decision stays a template decision at any later instant, and a free-text decision was free text at any earlier instant |
| ReminderSweepProperties.TemplateSticksWithinRun | routes/console.php:14-23 | when the clock never goes back, once an owner has been sent the template in a run, every later notification to that owner in the run is the template; a free-text notification means every earlier one to that owner was free text |
| ReminderSweepProperties.MixedKindsInOneRun | routes/console.php:16-20 | one run can send the same owner free text and then the template: two due tasks, an owner silent for 24 hours minus one second, and a second check one second after the first |
| ReminderSweepProperties.SweepReadsOnlyDueOwners | routes/console.php:12-16 | the run depends only on the rows of users who own a due task; changing any other user row does not change it |
| ReminderSweepProperties.ScenarioSilentThirtyHours | routes/console.php:16-17 | one due task whose owner has been silent for 30 hours produces exactly one template notification, with no error |
| ReminderSweepProperties.ScenarioRecentTwoHours | routes/console.php:18-20 | one due task whose owner wrote 2 hours ago produces exactly one notification, the free-text `"Lembrete de tarefa: Pagar conta"`, with no error |

## Left out

- The `inspire` command (`routes/console.php:6-8`) and the `hourly` /
  `everyMinute` scheduling: these are framework cron wiring. Runs that
  overlap, and the same task firing twice, are not modelled.
- The database query and eager loading: they are replaced by a task
  sequence and a map from user id to user row.
- The clock itself: its readings are parameters (`now` and `checks`).
  Readings are whole seconds; sub-second precision is not modelled.
- Carbon 2's absolute, truncated `diffInHours`: it gives the same decision
  as the model unless `last_whatsapp_at` is 24 hours or more after the
  check, where it does not (`Carbon2AgreesUnlessFarFuture`). The model
  follows Carbon 3.
- Delivery through the WhatsApp channel and the content of the
  `ReminderNotification` template: that code is not part of this model.
  Only whether a send fails is modelled, as the set `failing`.
- A NULL task description: under PHP string interpolation it would become
  the empty string. The schema is not part of this model, so descriptions
  are taken as non-null.
- `app/Services/StripeService.php`: a checkout call into a payment library
  that is not part of this model.
- `app/Notifications/SubscriptionCompleteNotification.php`: a fixed-template
  wrapper with no logic beyond its constant template id.
- The conversational command handling (menu, agenda, insights, task
  creation and update) exercised by `tests/Feature/NewMessageTest.php`: its
  service code is not part of this model.
