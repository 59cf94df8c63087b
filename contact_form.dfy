/**
 * Contact-form feedback: submitting never leaves the page; it shows a
 * success state on the send button and schedules a timer that restores the
 * button and resets the form. The timer's firing is an explicit step; the
 * 2.5 second delay is not modelled, and timers are never cancelled.
 */
module ContactForm {

  const SentLabel: string := "Message Sent ✓"
  const SentBackground: string := "#2ecc71"
  const SentLetterSpacing: string := "0.18em"
  const SendLabel: string := "Send Message →"

  /** The send button's label and the two inline styles the handlers set. */
  datatype Button = Button(textContent: string, background: string, letterSpacing: string)

  /** The button right after a submit. */
  const Sent: Button := Button(SentLabel, SentBackground, SentLetterSpacing)
  /** The button once a reset timer has fired: original label, inline styles cleared. */
  const Restored: Button := Button(SendLabel, "", "")

  /**
   * What happens on the page: a submit, the firing of one scheduled reset
   * timer, or the user editing the fields (no handler runs for that).
   */
  datatype FormEvent = Submit | ResetTimer | Edit(vs: seq<string>)

  datatype FormState = FormState(button: Button, values: seq<string>, pendingResets: nat)

  /** One handler, as a function of the state before it; `defaults` are the values `form.reset()` restores. */
  function Step(s: FormState, e: FormEvent, defaults: seq<string>): FormState
  {
    match e
    case Submit => s.(button := Sent, pendingResets := s.pendingResets + 1)
    case ResetTimer =>
      FormState(Restored, defaults, if s.pendingResets > 0 then s.pendingResets - 1 else 0)
    case Edit(vs) => s.(values := vs)
  }

  /** A timer only fires when a submit scheduled it and it has not fired yet. */
  ghost predicate Schedulable(s: FormState, events: seq<FormEvent>, defaults: seq<string>)
    decreases |events|
  {
    events == [] ||
    ((events[0] == ResetTimer ==> s.pendingResets > 0) &&
     Schedulable(Step(s, events[0], defaults), events[1..], defaults))
  }

  function Run(s: FormState, events: seq<FormEvent>, defaults: seq<string>): FormState
    decreases |events|
  {
    if events == [] then s else Run(Step(s, events[0], defaults), events[1..], defaults)
  }

  function Count(events: seq<FormEvent>, e: FormEvent): nat
    decreases |events|
  {
    if events == [] then 0 else (if events[0] == e then 1 else 0) + Count(events[1..], e)
  }

  /** The submits and timer firings of a run, in order: the events the button reacts to. */
  function Actions(events: seq<FormEvent>): (r: seq<FormEvent>)
    ensures forall e | e in r :: !e.Edit?
    decreases |events|
  {
    if events == [] then []
    else if events[0].Edit? then Actions(events[1..])
    else [events[0]] + Actions(events[1..])
  }

  /** No edits at all. */
  predicate NoEdits(events: seq<FormEvent>)
  {
    forall e | e in events :: !e.Edit?
  }

  /**
   * Over any run the page can produce: the button shows the success state
   * exactly when the last submit-or-timer event was a submit, pending timers
   * are the submits not yet matched by a firing, and the fields are the
   * defaults right after a timer fires, the typed values right after an
   * edit, and unchanged by submits.
   */
  lemma {:induction false} RunSummary(s: FormState, events: seq<FormEvent>, defaults: seq<string>)
    requires Schedulable(s, events, defaults)
    ensures Actions(events) == [] ==> Run(s, events, defaults).button == s.button
    ensures Actions(events) != [] ==>
      (Run(s, events, defaults).button == Sent <==> Actions(events)[|Actions(events)| - 1] == Submit)
    ensures events != [] && events[|events| - 1] == ResetTimer ==>
      Run(s, events, defaults).button == Restored && Run(s, events, defaults).values == defaults
    ensures events != [] && events[|events| - 1].Edit? ==>
      Run(s, events, defaults).values == events[|events| - 1].vs
    ensures NoEdits(events) && ResetTimer !in events ==> Run(s, events, defaults).values == s.values
    ensures Run(s, events, defaults).pendingResets + Count(events, ResetTimer)
         == s.pendingResets + Count(events, Submit)
    decreases |events|
  {
    if events != [] {
      var rest := events[1..];
      RunSummary(Step(s, events[0], defaults), rest, defaults);
      assert events == [events[0]] + rest;
      if |events| > 1 {
        assert events[|events| - 1] == rest[|rest| - 1];
      }
      if NoEdits(events) {
        assert NoEdits(rest) by {
          forall e | e in rest ensures !e.Edit? {
            assert e in events;
          }
        }
      }
      if !events[0].Edit? && Actions(rest) != [] {
        assert Actions(events)[|Actions(events)| - 1] == Actions(rest)[|Actions(rest)| - 1];
      }
    }
  }

  class Form {
    var button: Button
    /** Current values of the form's fields. */
    var values: seq<string>
    /** The values `form.reset()` restores. */
    const defaults: seq<string>
    /** Reset timers scheduled and not yet fired. */
    var pendingResets: nat

    constructor (defaults0: seq<string>)
      ensures button == Restored && values == defaults0 && defaults == defaults0
      ensures pendingResets == 0
    {
      button := Restored;
      values := defaults0;
      defaults := defaults0;
      pendingResets := 0;
    }

    function State(): FormState
      reads this
    {
      FormState(button, values, pendingResets)
    }

    /**
     * The submit handler. The default action is prevented, so the typed
     * values stay; only the button changes and one more reset is pending.
     */
    method OnSubmit()
      modifies this
      ensures button == Sent
      ensures values == old(values)
      ensures pendingResets == old(pendingResets) + 1
      ensures State() == Step(old(State()), Submit, defaults)
    {
      button := Sent;
      pendingResets := pendingResets + 1;
    }

    /**
     * The timer callback scheduled by a submit. It runs whatever happened
     * since: with two submits in flight, the first to fire already restores
     * the button.
     */
    method OnResetTimer()
      requires pendingResets > 0
      modifies this
      ensures button == Restored
      ensures values == defaults
      ensures pendingResets == old(pendingResets) - 1
      ensures State() == Step(old(State()), ResetTimer, defaults)
    {
      button := Restored;
      values := defaults;
      pendingResets := pendingResets - 1;
    }
  }
}
