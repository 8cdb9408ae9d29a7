/** The two form validators of script.js, `validateAppointmentForm` and
    `validateContactForm`, as pure functions from the form's raw input values
    to a verdict. An alert and `return false` become `Refused` with the kind
    of alert; `return true` becomes `Accepted`. */
module Validation {
  import opened Text
  import opened Pattern
  import opened Rules

  datatype Option<T> = None | Some(value: T)

  /** The raw values of the appointment form's inputs `name`, `email`,
      `phone`, `date` and `time`. */
  datatype AppointmentForm = AppointmentForm(name: string, email: string, phone: string, date: string, time: string)

  /** The raw values of the contact form's inputs `contact-name`,
      `contact-email`, `subject` and `contact-message`. */
  datatype ContactForm = ContactForm(name: string, email: string, subject: string, message: string)

  /** The four alerts a validator can raise. */
  datatype Refusal = MissingField | InvalidEmail | InvalidPhone | PastDate

  datatype Verdict = Accepted | Refused(reason: Refusal)

  /** The date check on whole days. `selected` is the day `new Date(date)`
      denotes, or `None` when that is an Invalid Date: comparing NaN with a
      date is false, so such a value is not refused. */
  predicate DayNotPast(selected: Option<int>, today: int) {
    match selected
    case None => true
    case Some(day) => !(day < today)
  }

  /** `validateAppointmentForm`, given how the date input's value converts
      to a day (`dayOf`) and the current day (`today`). Name, e-mail and
      phone are trimmed before the checks; date and time are not. */
  function ValidateAppointment(f: AppointmentForm, dayOf: string -> Option<int>, today: int): (v: Verdict)
    ensures v == Accepted <==>
      && !AllSpace(f.name) && !AllSpace(f.email) && !AllSpace(f.phone) && f.date != [] && f.time != []
      && Matches(EmailPattern(), Trim(f.email))
      && Matches(PhonePattern(), Trim(f.phone))
      && DayNotPast(dayOf(f.date), today)
    ensures v == Refused(MissingField) <==>
      AllSpace(f.name) || AllSpace(f.email) || AllSpace(f.phone) || f.date == [] || f.time == []
    ensures v == Refused(InvalidEmail) <==>
      && !AllSpace(f.name) && !AllSpace(f.email) && !AllSpace(f.phone) && f.date != [] && f.time != []
      && !Matches(EmailPattern(), Trim(f.email))
    ensures v == Refused(InvalidPhone) <==>
      && !AllSpace(f.name) && !AllSpace(f.email) && !AllSpace(f.phone) && f.date != [] && f.time != []
      && Matches(EmailPattern(), Trim(f.email))
      && !Matches(PhonePattern(), Trim(f.phone))
    ensures v == Refused(PastDate) <==>
      && !AllSpace(f.name) && !AllSpace(f.email) && !AllSpace(f.phone) && f.date != [] && f.time != []
      && Matches(EmailPattern(), Trim(f.email))
      && Matches(PhonePattern(), Trim(f.phone))
      && !DayNotPast(dayOf(f.date), today)
  {
    var name := Trim(f.name);
    var email := Trim(f.email);
    var phone := Trim(f.phone);
    EmailRuleMatchesPattern(email);
    PhoneRuleMatchesPattern(phone);
    if name == [] || email == [] || phone == [] || f.date == [] || f.time == [] then
      Refused(MissingField)
    else if !EmailRule(email) then
      Refused(InvalidEmail)
    else if !PhoneRule(phone) then
      Refused(InvalidPhone)
    else if !DayNotPast(dayOf(f.date), today) then
      Refused(PastDate)
    else
      Accepted
  }

  /** `validateContactForm`. Name, e-mail and message are trimmed; the
      subject is not. Phone and date are never looked at. */
  function ValidateContact(f: ContactForm): (v: Verdict)
    ensures v == Accepted <==>
      && !AllSpace(f.name) && !AllSpace(f.email) && f.subject != [] && !AllSpace(f.message)
      && Matches(EmailPattern(), Trim(f.email))
    ensures v == Refused(MissingField) <==>
      AllSpace(f.name) || AllSpace(f.email) || f.subject == [] || AllSpace(f.message)
    ensures v != Refused(InvalidPhone) && v != Refused(PastDate)
  {
    var name := Trim(f.name);
    var email := Trim(f.email);
    var message := Trim(f.message);
    EmailRuleMatchesPattern(email);
    if name == [] || email == [] || f.subject == [] || message == [] then
      Refused(MissingField)
    else if !EmailRule(email) then
      Refused(InvalidEmail)
    else
      Accepted
  }

  /** On whole days the date check refuses exactly the days strictly before
      today: today and every later day pass. */
  lemma DayNotPastIff(day: int, today: int)
    ensures DayNotPast(Some(day), today) <==> today <= day
  {
  }

  /** A blank phone is refused as a missing field whatever the other fields
      hold, before the e-mail is looked at. */
  lemma BlankPhoneRefused(f: AppointmentForm, dayOf: string -> Option<int>, today: int)
    requires AllSpace(f.phone)
    ensures ValidateAppointment(f, dayOf, today) == Refused(MissingField)
  {
  }

  /** Once a check fails, the fields consulted only by later checks make no
      difference: changing the phone and the date leaves an e-mail refusal as
      it was, and changing the date leaves a phone refusal as it was. */
  lemma FirstFailureDecides(f: AppointmentForm, phone: string, date: string,
                            dayOf: string -> Option<int>, today: int, otherDayOf: string -> Option<int>, otherToday: int)
    requires !AllSpace(phone) && date != []
    ensures ValidateAppointment(f, dayOf, today) == Refused(InvalidEmail) ==>
      ValidateAppointment(f.(phone := phone, date := date), otherDayOf, otherToday) == Refused(InvalidEmail)
    ensures ValidateAppointment(f, dayOf, today) == Refused(InvalidPhone) ==>
      ValidateAppointment(f.(date := date), otherDayOf, otherToday) == Refused(InvalidPhone)
  {
  }

  /** An address that passes both the trim and the e-mail rule unchanged. */
  lemma SampleAddress()
    ensures Trim("a@b.co") == "a@b.co" && Matches(EmailPattern(), "a@b.co")
  {
    assert Unpadded("a@b.co");
    TrimUnpadded("a@b.co");
    assert "b.co"[1] == '.';
    assert HasInnerDot("b.co");
    assert AllSegmentChars("a");
    assert AllSegmentChars("b.co");
    EmailRuleAt("a", "b.co");
    assert "a" + "@" + "b.co" == "a@b.co";
    EmailRuleMatchesPattern("a@b.co");
  }

  /** Date and time are only tested for being empty, not trimmed: a date and
      a time holding one space pass the presence check. */
  lemma AppointmentDateNotTrimmed(today: int)
    ensures ValidateAppointment(AppointmentForm("Ann", "a@b.co", "12", " ", " "), _ => None, today) == Accepted
  {
    SampleAddress();
    assert Unpadded("Ann") && Unpadded("12");
    TrimUnpadded("Ann");
    TrimUnpadded("12");
    assert PhoneRule("12");
    PhoneRuleMatchesPattern("12");
  }

  /** The contact form's subject is not trimmed either, while a blank
      message counts as missing. */
  lemma ContactSubjectNotTrimmed()
    ensures ValidateContact(ContactForm("Ann", "a@b.co", " ", "Hi")) == Accepted
    ensures ValidateContact(ContactForm("Ann", "a@b.co", "Visit", " ")) == Refused(MissingField)
  {
    SampleAddress();
    assert Unpadded("Ann") && Unpadded("Hi");
    TrimUnpadded("Ann");
    TrimUnpadded("Hi");
    assert AllSpace(" ");
  }

  const MinutesPerDay := 1440

  /** The date comparison as script.js writes it, in minutes since the
      epoch. `new Date("YYYY-MM-DD")` is midnight UTC of the selected day;
      `today` after `setHours(0, 0, 0, 0)` is midnight of the local calendar
      day, which is `utcOffset` minutes (local time minus UTC) before
      midnight UTC of that day. Real offsets lie within a day of UTC; for
      those, an earlier day is always refused and a later day always
      passes, so only today's date depends on the zone. */
  predicate NotPastAsWritten(selectedDay: int, localToday: int, utcOffset: int)
    requires -MinutesPerDay < utcOffset < MinutesPerDay
    ensures selectedDay < localToday ==> !NotPastAsWritten(selectedDay, localToday, utcOffset)
    ensures localToday < selectedDay ==> NotPastAsWritten(selectedDay, localToday, utcOffset)
  {
    !(selectedDay * MinutesPerDay < localToday * MinutesPerDay - utcOffset)
  }

  /** East of UTC and at UTC the comparison as written is the whole-day
      check. */
  lemma AsWrittenAgreesEastOfUtc(selectedDay: int, localToday: int, utcOffset: int)
    requires 0 <= utcOffset < MinutesPerDay
    ensures NotPastAsWritten(selectedDay, localToday, utcOffset) <==> DayNotPast(Some(selectedDay), localToday)
  {
    if selectedDay < localToday {
      assert selectedDay * MinutesPerDay <= localToday * MinutesPerDay - MinutesPerDay;
    }
  }

  /** West of UTC the comparison as written refuses today as well: only
      later days pass. */
  lemma AsWrittenRefusesTodayWestOfUtc(selectedDay: int, localToday: int, utcOffset: int)
    requires -MinutesPerDay < utcOffset < 0
    ensures NotPastAsWritten(selectedDay, localToday, utcOffset) <==> localToday < selectedDay
  {
    if localToday < selectedDay {
      assert selectedDay * MinutesPerDay >= localToday * MinutesPerDay + MinutesPerDay;
    }
  }

  /** A user five hours behind UTC who picks today's date is refused by the
      code as written, and accepted by the whole-day check. */
  lemma TodayRefusedFiveHoursWestOfUtc(today: int)
    ensures !NotPastAsWritten(today, today, -300)
    ensures DayNotPast(Some(today), today)
  {
  }
}
