/** The public contact form: required fields, the shape an email address
    must have, the default request type, and how failures of the mail
    service are reported. */
module Contact {
  import opened Base
  import opened Http
  import opened Lists

  const MissingFields := "Missing required fields: name, email, and message are required"
  const InvalidEmail := "Invalid email address format"
  const GeneralInquiry := "General Inquiry"
  const NotConfigured := "Email service not properly configured"
  const SendFailed := "Failed to send support request"
  const KeyProblem := "API key"

  /** A character the class `[^\s@]` admits. */
  predicate Plain(c: char) {
    !IsSpace(c) && c != '@'
  }

  predicate AllPlain(s: string) {
    forall i :: 0 <= i < |s| ==> Plain(s[i])
  }

  predicate IsAt(c: char) {
    c == '@'
  }

  /** The regular expression `^[^\s@]+@[^\s@]+\.[^\s@]+$` read literally:
      the address splits at some `@` and some later `.` into three
      non-empty runs of plain characters. */
  ghost predicate MatchesPattern(e: string) {
    exists at, dot :: && 0 < at && at + 1 < dot && dot + 1 < |e|
                      && e[at] == '@' && e[dot] == '.'
                      && AllPlain(e[..at]) && AllPlain(e[at + 1..dot]) && AllPlain(e[dot + 1..])
  }

  /** The address check: split at the first `@`; the local part before it
      is non-empty and plain, and the domain after it is plain (so there is
      no second `@`) with a `.` that is neither its first nor its last
      character. */
  predicate ValidEmail(e: string) {
    match FirstIndex(e, IsAt)
    case None => false
    case Some(at) =>
      var domain := e[at + 1..];
      && at > 0 && AllPlain(e[..at]) && AllPlain(domain)
      && exists k :: 1 <= k < |domain| - 1 && domain[k] == '.'
  }

  lemma AllPlainSlice(s: string, i: nat, j: nat)
    requires AllPlain(s) && i <= j <= |s|
    ensures AllPlain(s[i..j])
  {
    assert forall n :: 0 <= n < j - i ==> s[i..j][n] == s[i + n];
  }

  /** The check accepts exactly the addresses the regular expression
      matches. */
  lemma ValidEmailIffPattern(e: string)
    ensures ValidEmail(e) <==> MatchesPattern(e)
  {
    if ValidEmail(e) {
      ValidEmailMatches(e);
    }
    if MatchesPattern(e) {
      var at, dot :| && 0 < at && at + 1 < dot && dot + 1 < |e|
                     && e[at] == '@' && e[dot] == '.'
                     && AllPlain(e[..at]) && AllPlain(e[at + 1..dot]) && AllPlain(e[dot + 1..]);
      MatchIsValid(e, at, dot);
    }
  }

  lemma ValidEmailMatches(e: string)
    requires ValidEmail(e)
    ensures MatchesPattern(e)
  {
    var at := FirstIndex(e, IsAt).value;
    var domain := e[at + 1..];
    var k :| 1 <= k < |domain| - 1 && domain[k] == '.';
    var dot := at + 1 + k;
    AllPlainSlice(domain, 0, k);
    AllPlainSlice(domain, k + 1, |domain|);
    assert e[at + 1..dot] == domain[..k];
    assert e[dot + 1..] == domain[k + 1..];
    assert e[dot] == domain[k];
  }

  lemma MatchIsValid(e: string, at: int, dot: int)
    requires && 0 < at && at + 1 < dot && dot + 1 < |e|
             && e[at] == '@' && e[dot] == '.'
             && AllPlain(e[..at]) && AllPlain(e[at + 1..dot]) && AllPlain(e[dot + 1..])
    ensures ValidEmail(e)
  {
    FirstAtIs(e, at);
    var domain := e[at + 1..];
    forall i | 0 <= i < |domain| ensures Plain(domain[i]) {
      var p := at + 1 + i;
      assert domain[i] == e[p];
      if p < dot {
        assert e[p] == e[at + 1..dot][p - at - 1];
      } else if p > dot {
        assert e[p] == e[dot + 1..][p - dot - 1];
      }
    }
    var k := dot - at - 1;
    assert domain[k] == '.';
  }

  /** An `@` preceded only by plain characters is the first one. */
  lemma FirstAtIs(e: string, at: nat)
    requires at < |e| && e[at] == '@' && AllPlain(e[..at])
    ensures FirstIndex(e, IsAt) == Some(at)
  {
    forall i | 0 <= i < at ensures !IsAt(e[i]) {
      assert e[..at][i] == e[i];
    }
  }

  /** The fields of the form, each possibly missing. */
  datatype ContactForm = ContactForm(
    name: Option<string>,
    email: Option<string>,
    requestType: Option<string>,
    message: Option<string>)

  /** The message handed to the mail service. */
  datatype SupportEmail = SupportEmail(senderName: string, senderEmail: string, requestType: string, message: string)

  /** What the mail service answers: the id of the sent message, or an
      error with its message. */
  datatype SendResult = Delivered(id: Option<string>) | Undelivered(message: string)

  /** `submitContactRequest`: the mail it asks to send, if any, and the
      answer (the sent message's id on success). `outcome` is the mail
      service's answer to that request. */
  function SubmitContactRequest(form: ContactForm, outcome: SendResult): (r: (Option<SupportEmail>, Reply<Option<string>>))
    ensures !Present(form.name) || !Present(form.email) || !Present(form.message) ==>
      r == (None, Fail(BadRequest, MissingFields))
    ensures Present(form.name) && Present(form.email) && Present(form.message) && !ValidEmail(form.email.value) ==>
      r == (None, Fail(BadRequest, InvalidEmail))
    ensures r.0.Some? <==> Present(form.name) && Present(form.email) && Present(form.message) && ValidEmail(form.email.value)
    ensures r.0.Some? ==>
      && r.0.value.senderName == form.name.value
      && r.0.value.senderEmail == form.email.value
      && r.0.value.message == form.message.value
      && r.0.value.requestType == (if Present(form.requestType) then form.requestType.value else GeneralInquiry)
    ensures r.0.Some? && outcome.Delivered? ==> r.1 == Ok(OkStatus, outcome.id)
    ensures r.0.Some? && outcome.Undelivered? ==>
      && r.1.Fail? && r.1.status == InternalError
      && (Contains(outcome.message, KeyProblem) ==> r.1.message == NotConfigured)
      && (!Contains(outcome.message, KeyProblem) && outcome.message != "" ==> r.1.message == outcome.message)
      && (outcome.message == "" ==> r.1.message == SendFailed)
  {
    if !Present(form.name) || !Present(form.email) || !Present(form.message) then
      (None, Fail(BadRequest, MissingFields))
    else if !ValidEmail(form.email.value) then
      (None, Fail(BadRequest, InvalidEmail))
    else
      var mail := SupportEmail(form.name.value, form.email.value, OrElse(form.requestType, Some(GeneralInquiry)).value,
                               form.message.value);
      match outcome
      case Delivered(id) => (Some(mail), Ok(OkStatus, id))
      case Undelivered(m) =>
        if Contains(m, KeyProblem) then (Some(mail), Fail(InternalError, NotConfigured))
        else (Some(mail), Fail(InternalError, if m != "" then m else SendFailed))
  }

  /** An empty error message cannot mention the key, so it is answered with
      the fallback text. */
  lemma EmptyErrorFallsBack(form: ContactForm)
    requires Present(form.name) && Present(form.email) && Present(form.message) && ValidEmail(form.email.value)
    ensures SubmitContactRequest(form, Undelivered("")).1 == Fail(InternalError, SendFailed)
  {
    assert !OccursAt("", KeyProblem, 0);
  }

  /** Whatever the mail service says, the form is answered with 200 or
      500 once it passed the checks, and with 400 before any mail is sent
      otherwise. */
  lemma ContactStatuses(form: ContactForm, outcome: SendResult)
    ensures var r := SubmitContactRequest(form, outcome);
      && (r.0.None? ==> r.1.Fail? && r.1.status == BadRequest)
      && (r.0.Some? ==> (r.1.Ok? <==> outcome.Delivered?))
      && (r.1.Ok? ==> r.1.status == OkStatus)
      && (r.0.Some? && r.1.Fail? ==> r.1.status == InternalError)
  {
  }

  /** A concrete address: `a@b.co` passes; `a@b.` and `a@@b.co` do not. */
  lemma ExampleAddresses(good: string, dotLast: string, twoAts: string)
    requires good == "a@b.co" && dotLast == "a@b." && twoAts == "a@@b.co"
    ensures ValidEmail(good)
    ensures !ValidEmail(dotLast)
    ensures !ValidEmail(twoAts)
  {
    FirstAtIs(good, 1);
    assert good[2..][1] == '.';
    FirstAtIs(dotLast, 1);
    FirstAtIs(twoAts, 1);
    assert !Plain(twoAts[2..][0]);
  }
}
