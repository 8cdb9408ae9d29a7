/** What `submitAppointmentForm` and `submitContactForm` do to the page. Both
    hide their form, show their success panel and schedule a callback that,
    five seconds later, resets the form, shows it again and hides the success
    panel. The two functions differ only in which elements they touch, so
    one class models either form with its panel. The callbacks are never
    cancelled; `pendingResets` counts those scheduled and not yet run. A
    hidden form (`display: none`) can be neither typed in nor submitted, so
    nothing happens to it until its callback shows it again. */
module Panels {
  import opened Validation

  /** The visible state of one form and its success panel, the values of
      the form's inputs, and the number of reset callbacks still scheduled. */
  datatype PanelView = PanelView(formVisible: bool, successVisible: bool, fields: seq<string>, pendingResets: nat)

  /** What can happen to a form. */
  datatype Event =
    | Typed(values: seq<string>)   // the user changes the inputs
    | SubmitValid                  // a submit event whose validation passed
    | SubmitInvalid                // a submit event whose validation raised an alert
    | ResetFires                   // a scheduled reset callback runs

  /** The page as loaded: form shown, success panel hidden, inputs at their
      default values, nothing scheduled. */
  function Initial(defaults: seq<string>): PanelView {
    PanelView(true, false, defaults, 0)
  }

  /** `form.style.display = 'none'`, `successMessage.style.display = 'block'`
      and one more reset scheduled; the inputs keep their values. From a
      consistent page with the form shown it leads to a consistent page. */
  function AfterSubmit(v: PanelView): (r: PanelView)
    ensures forall defaults: seq<string> {:trigger Consistent(r, defaults)} ::
      Consistent(v, defaults) && v.formVisible ==> Consistent(r, defaults)
  {
    v.(formVisible := false, successVisible := true, pendingResets := v.pendingResets + 1)
  }

  /** The callback: `form.reset()`, form shown, success panel hidden. What
      it shows does not depend on the state it finds, and from a consistent
      page it leads to a consistent page. */
  function AfterReset(v: PanelView, defaults: seq<string>): (r: PanelView)
    requires v.pendingResets > 0
    ensures Display(r) == Settled(defaults)
    ensures Consistent(v, defaults) ==> Consistent(r, defaults)
  {
    PanelView(true, false, defaults, v.pendingResets - 1)
  }

  /** One event. Typing and submission reach only a shown form. */
  function Step(v: PanelView, e: Event, defaults: seq<string>): (r: PanelView)
    ensures Consistent(v, defaults) ==> Consistent(r, defaults)
  {
    match e
    case Typed(values) => if v.formVisible && |values| == |defaults| then v.(fields := values) else v
    case SubmitValid => if v.formVisible then AfterSubmit(v) else v
    case SubmitInvalid => v
    case ResetFires => if v.pendingResets > 0 then AfterReset(v, defaults) else v
  }

  function Run(v: PanelView, events: seq<Event>, defaults: seq<string>): PanelView
    decreases |events|
  {
    if events == [] then v else Run(Step(v, events[0], defaults), events[1..], defaults)
  }


  /** Exactly one of form and success panel is shown, a reset is scheduled
      exactly while the success panel is shown, never more than one, and the
      inputs match the form. */
  predicate Consistent(v: PanelView, defaults: seq<string>) {
    && v.formVisible != v.successVisible
    && (v.successVisible <==> v.pendingResets > 0)
    && v.pendingResets <= 1
    && |v.fields| == |defaults|
  }

  /** What the user sees: the two panels and the inputs. */
  function Display(v: PanelView): (bool, bool, seq<string>) {
    (v.formVisible, v.successVisible, v.fields)
  }

  /** The display after a reset: form shown with its default values, success
      panel hidden. */
  function Settled(defaults: seq<string>): (bool, bool, seq<string>) {
    (true, false, defaults)
  }

  /** Every sequence of events keeps the page consistent. */
  lemma {:induction false} RunKeepsConsistent(v: PanelView, events: seq<Event>, defaults: seq<string>)
    requires Consistent(v, defaults)
    ensures Consistent(Run(v, events, defaults), defaults)
    decreases |events|
  {
    if events != [] {
      RunKeepsConsistent(Step(v, events[0], defaults), events[1..], defaults);
    }
  }

  /** Submission hides the form and shows the success panel. */
  lemma SubmitShowsSuccess(v: PanelView)
    ensures Display(AfterSubmit(v)) == (false, true, v.fields)
    ensures AfterSubmit(v).pendingResets > 0
  {
  }

  /** The callback leaves the same display whatever the state it finds.
      The second clause is about two callbacks scheduled at once, which
      `RunKeepsConsistent` shows never happens from a consistent page; it
      says that even then the second would show what the first showed. */
  lemma ResetForgetsState(v: PanelView, w: PanelView, defaults: seq<string>)
    requires v.pendingResets > 0 && w.pendingResets > 0
    ensures Display(AfterReset(v, defaults)) == Display(AfterReset(w, defaults)) == Settled(defaults)
    ensures v.pendingResets > 1 ==>
      Display(AfterReset(AfterReset(v, defaults), defaults)) == Display(AfterReset(v, defaults))
  {
  }

  /** Events that neither submit successfully nor change the inputs. */
  predicate Quiet(events: seq<Event>) {
    forall i | 0 <= i < |events| :: events[i] == ResetFires || events[i] == SubmitInvalid
  }

  /** Once settled, the display stays settled under quiet events. */
  lemma {:induction false} QuietKeepsSettled(v: PanelView, events: seq<Event>, defaults: seq<string>)
    requires Quiet(events) && Display(v) == Settled(defaults)
    ensures Display(Run(v, events, defaults)) == Settled(defaults)
    decreases |events|
  {
    if events != [] {
      QuietKeepsSettled(Step(v, events[0], defaults), events[1..], defaults);
    }
  }

  /** With a reset scheduled, quiet events that include a callback end in
      the settled display. */
  lemma {:induction false} QuietRunSettles(v: PanelView, events: seq<Event>, defaults: seq<string>)
    requires Quiet(events) && ResetFires in events && v.pendingResets > 0
    ensures Display(Run(v, events, defaults)) == Settled(defaults)
    decreases |events|
  {
    var next := Step(v, events[0], defaults);
    if events[0] == ResetFires {
      QuietKeepsSettled(next, events[1..], defaults);
    } else {
      assert ResetFires in events[1..];
      QuietRunSettles(next, events[1..], defaults);
    }
  }

  /** After a successful submission, as soon as a callback has run and
      nothing else was submitted or typed, the form is back as it was
      loaded: shown, with its default values, and the success panel hidden.
      A submission that reaches a hidden form is ignored, and then the
      callback already scheduled does the same. */
  lemma SettlesAfterSubmit(v: PanelView, events: seq<Event>, defaults: seq<string>)
    requires Consistent(v, defaults) && Quiet(events) && ResetFires in events
    ensures Display(Run(v, [SubmitValid] + events, defaults)) == Settled(defaults)
  {
    assert ([SubmitValid] + events)[1..] == events;
    QuietRunSettles(Step(v, SubmitValid, defaults), events, defaults);
  }

  /** From the page as loaded, whatever happens, a scheduled callback always
      finds the success panel shown and the form hidden, and at most one is
      scheduled: no callback is ever stale, so none can overwrite what the
      user typed after the form came back. */
  lemma CallbackNeverStale(events: seq<Event>, defaults: seq<string>)
    ensures var w := Run(Initial(defaults), events, defaults);
      && (w.pendingResets > 0 <==> w.successVisible && !w.formVisible)
      && w.pendingResets <= 1
  {
    RunKeepsConsistent(Initial(defaults), events, defaults);
  }

  /** A second submission while the success panel is shown is ignored, so
      input typed after the callback survives a further callback event. */
  lemma TypingAfterResetSurvives(defaults: seq<string>, typed: seq<string>)
    requires |typed| == |defaults|
    ensures Run(Initial(defaults), [SubmitValid, SubmitValid, ResetFires, Typed(typed), ResetFires], defaults)
         == PanelView(true, false, typed, 0)
  {
    var events := [SubmitValid, SubmitValid, ResetFires, Typed(typed), ResetFires];
    var v1 := Step(Initial(defaults), SubmitValid, defaults);
    var v2 := Step(v1, SubmitValid, defaults);
    var v3 := Step(v2, ResetFires, defaults);
    var v4 := Step(v3, Typed(typed), defaults);
    assert v2 == v1 && v3 == PanelView(true, false, defaults, 0);
    assert v4 == PanelView(true, false, typed, 0);
    calc {
      Run(Initial(defaults), events, defaults);
      Run(v1, [SubmitValid, ResetFires, Typed(typed), ResetFires], defaults);
      Run(v2, [ResetFires, Typed(typed), ResetFires], defaults);
      Run(v3, [Typed(typed), ResetFires], defaults);
      Run(v4, [ResetFires], defaults);
      { assert [ResetFires][1..] == []; }
      Step(v4, ResetFires, defaults);
    }
  }

  /** The five inputs `validateAppointmentForm` reads, taken as the first
      five inputs of the form in the order name, e-mail, phone, date,
      time; any further inputs are not read. */
  function AppointmentOf(fields: seq<string>): AppointmentForm
    requires |fields| >= 5
  {
    AppointmentForm(fields[0], fields[1], fields[2], fields[3], fields[4])
  }

  /** The four inputs `validateContactForm` reads: name, e-mail, subject,
      message. */
  function ContactOf(fields: seq<string>): ContactForm
    requires |fields| >= 4
  {
    ContactForm(fields[0], fields[1], fields[2], fields[3])
  }

  /** One form and its success panel. */
  class FormPanel {
    const defaults: seq<string>
    var formVisible: bool
    var successVisible: bool
    var fields: seq<string>
    ghost var pendingResets: nat

    ghost function View(): PanelView
      reads this
    {
      PanelView(formVisible, successVisible, fields, pendingResets)
    }

    ghost predicate Valid()
      reads this
    {
      Consistent(View(), defaults)
    }

    constructor (defaults: seq<string>)
      ensures this.defaults == defaults
      ensures Valid() && View() == Initial(defaults)
    {
      this.defaults := defaults;
      formVisible := true;
      successVisible := false;
      fields := defaults;
      pendingResets := 0;
    }

    /** The user fills in the inputs, which only a shown form allows. */
    method Type(values: seq<string>)
      requires Valid() && |values| == |defaults|
      modifies this
      ensures Valid() && View() == Step(old(View()), Typed(values), defaults)
    {
      if formVisible {
        fields := values;
      }
    }

    /** `submitAppointmentForm` / `submitContactForm`, called by the submit
        listener of the shown form. */
    method Submit()
      requires Valid() && formVisible
      modifies this
      ensures Valid() && View() == AfterSubmit(old(View()))
    {
      formVisible := false;
      successVisible := true;
      pendingResets := pendingResets + 1;
    }

    /** The callback scheduled by `Submit`, run by the event loop. */
    method TimerFires()
      requires Valid() && pendingResets > 0
      modifies this
      ensures Valid() && View() == AfterReset(old(View()), defaults)
    {
      fields := defaults;
      formVisible := true;
      successVisible := false;
      pendingResets := pendingResets - 1;
    }

    /** The form's submit listener: submit only when validation passed;
        after an alert nothing on the page changes, and a hidden form gets
        no submit event. */
    method HandleSubmit(accepted: bool)
      requires Valid()
      modifies this
      ensures Valid()
      ensures View() == Step(old(View()), if accepted then SubmitValid else SubmitInvalid, defaults)
    {
      if formVisible && accepted {
        Submit();
      }
    }

    /** The appointment form's submit listener, with the verdict of
        `validateAppointmentForm` on the current inputs deciding the
        submission. */
    method AppointmentSubmitted(dayOf: string -> Option<int>, today: int)
      requires Valid() && |defaults| >= 5
      modifies this
      ensures Valid()
      ensures View() == Step(old(View()),
        if ValidateAppointment(AppointmentOf(old(fields)), dayOf, today) == Accepted then SubmitValid else SubmitInvalid,
        defaults)
    {
      var verdict := ValidateAppointment(AppointmentOf(fields), dayOf, today);
      HandleSubmit(verdict == Accepted);
    }

    /** The contact form's submit listener, with the verdict of
        `validateContactForm` deciding the submission. */
    method ContactSubmitted()
      requires Valid() && |defaults| >= 4
      modifies this
      ensures Valid()
      ensures View() == Step(old(View()),
        if ValidateContact(ContactOf(old(fields))) == Accepted then SubmitValid else SubmitInvalid,
        defaults)
    {
      var verdict := ValidateContact(ContactOf(fields));
      HandleSubmit(verdict == Accepted);
    }
  }

  /** A full cycle on a fresh form: type, submit, the callback runs, and the
      page is as it was loaded. */
  method SubmitCycle(defaults: seq<string>, values: seq<string>) returns (panel: FormPanel)
    requires |values| == |defaults|
    ensures Display(panel.View()) == Settled(defaults) && panel.pendingResets == 0
  {
    panel := new FormPanel(defaults);
    panel.Type(values);
    panel.HandleSubmit(true);
    assert !panel.formVisible && panel.successVisible && panel.fields == values;
    panel.TimerFires();
  }
}
