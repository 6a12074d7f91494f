/** The registration workflow of both pages as a state machine: the operator's
    answers drive it stage by stage, from the upload check through the
    deadline verdict and the notify/convert action to the account checklist.
    The I/O actions (sending, displaying, PDF conversion) are recorded as the
    effect the session requests, not performed. */
module Workflow {
  import opened Results
  import opened Dates
  import opened DateText
  import opened DeadlineRules
  import opened Uploads

  /** Dispatching is ct.py: it needs a company e-mail address first and sends
      the notice to it. Drafting is ct_reg.py: no e-mail gate, and the notice
      is only shown for the operator to send. */
  datatype Variant = Dispatching | Drafting

  datatype Answer = Yes | No

  datatype AccountKind = EmailAccount | UaePassAccount

  /** Everything the operator supplies during one session, with `today`
      standing in for the clock. `actionPressed` is the Send Email or
      Convert to PDF button, whichever is offered. */
  datatype Answers = Answers(
    companyName: string,
    companyEmail: string,
    uploads: seq<Upload>,
    allUploaded: Answer,
    dateText: string,
    today: Date,
    actionPressed: bool,
    accountCreated: Answer,
    customerReplied: Answer,
    accountKind: AccountKind)

  datatype EvaluationError =
    | BadDate(parse: ParseError)           // the date text was rejected
    | NoDeadline(cause: DeadlineError)     // the deadline could not be computed

  /** The outcome of the deadline check. */
  datatype Verdict =
    | Overdue(issue: Date, deadline: Date)
    | OnTime(issue: Date, deadline: Date)
    | Failed(error: EvaluationError)

  /** The dates of a verdict are real dates and the deadline follows the issue date. */
  predicate SoundVerdict(v: Verdict)
  {
    (v.Overdue? || v.OnTime?) ==> ValidDate(v.issue) && ValidDate(v.deadline) && Before(v.issue, v.deadline)
  }

  /** Parse the issue date, compute its deadline, compare with today. A parse
      failure leaves the issue date unbound in the source, so the evaluation
      raises and the error is shown; a missing deadline does the same. */
  function Evaluate(dateText: string, today: Date): (r: Verdict)
    ensures SoundVerdict(r)
    ensures r.Overdue? || r.OnTime? ==> Parse(dateText) == Ok(r.issue) && Deadline(r.issue) == Ok(r.deadline)
    ensures r.Overdue? ==> Before(r.deadline, today)
    ensures r.OnTime? ==> !Before(r.deadline, today)
    ensures Parse(dateText).Ok? && Deadline(Parse(dateText).value).Ok? ==> !r.Failed?
    ensures r.Failed? ==> (r.error.BadDate? <==> Parse(dateText).Err?)
  {
    var parsed := Parse(dateText);
    if parsed.Err? then Failed(BadDate(parsed.error))
    else
      var issue := parsed.value;
      var deadline := Deadline(issue);
      if deadline.Err? then Failed(NoDeadline(deadline.error))
      else
        if PastDue(deadline.value, today) then Overdue(issue, deadline.value)
        else OnTime(issue, deadline.value)
  }

  /** The button the page offers after the verdict. */
  datatype Offer = SendEmailButton | ConvertToPdfButton

  function OfferFor(v: Verdict): (r: Option<Offer>)
    ensures r.Some? <==> !v.Failed?
    ensures r == Some(SendEmailButton) <==> v.Overdue?
  {
    match v
    case Overdue(_, _) => Some(SendEmailButton)
    case OnTime(_, _) => Some(ConvertToPdfButton)
    case Failed(_) => None
  }

  const Subject := "FTA Registration Deadline Notification"

  const Greeting := "\nGreetings "
  const AfterCompany := " Team,\n\nIt has come to our notice that your license issue date is "
  const AfterIssue := " and the deadline was "
  const Closing :=
    ". We regret to inform you that there is a chance of a late registration penalty of AED 10,000 imposed on the license.\n\n"
    + "We are informing you in advance to avoid any surprises if it happens. Once imposed, you will receive a message and email for the approval of your registration and the penalty.\n\n"
    + "Would you like to proceed with the registration despite the possibility of a penalty?\n\n"
    + "Thanks.\n"

  /** The indentation before the closing quotes of the template, which ends up in the message. */
  function Trailer(v: Variant): string
  {
    if v == Dispatching then "                            " else "                        "
  }

  /** The late-registration notice; both dates are rendered as `%d/%m/%Y`.
      For four-digit years the company name, issue date and deadline can all
      be read back from it. */
  function NoticeBody(v: Variant, company: string, issue: Date, deadline: Date): (r: string)
    requires ValidDate(issue) && ValidDate(deadline)
    ensures issue.year >= 1000 && deadline.year >= 1000 ==>
              ReadNotice(v, r) == Some(NoticeFields(company, issue, deadline))
  {
    NoticeReadsBack(v, company, issue, deadline);
    Greeting + company + AfterCompany + Render(issue) + AfterIssue + Render(deadline) + Ending(v)
  }

  function Ending(v: Variant): string
  {
    Closing + Trailer(v)
  }

  /** What a notice carries. */
  datatype NoticeFields = NoticeFields(company: string, issue: Date, deadline: Date)

  /** Reads company name, issue date and deadline back out of a notice body:
      the inverse of `NoticeBody` for four-digit years. */
  function ReadNotice(v: Variant, body: string): Option<NoticeFields>
  {
    var fixed := |Greeting| + |AfterCompany| + 10 + |AfterIssue| + 10 + |Ending(v)|;
    if |body| < fixed then None
    else
      var n := |body| - fixed;
      var issueAt := |Greeting| + n + |AfterCompany|;
      var deadlineAt := issueAt + 10 + |AfterIssue|;
      var issue, deadline := Parse(body[issueAt..issueAt + 10]), Parse(body[deadlineAt..deadlineAt + 10]);
      if issue.Ok? && deadline.Ok? then
        Some(NoticeFields(body[|Greeting|..|Greeting| + n], issue.value, deadline.value))
      else None
  }

  /** The template of `NoticeBody`, spelled out, reads back for four-digit years. */
  lemma NoticeReadsBack(v: Variant, company: string, issue: Date, deadline: Date)
    requires ValidDate(issue) && ValidDate(deadline)
    ensures issue.year >= 1000 && deadline.year >= 1000 ==>
            ReadNotice(v, Greeting + company + AfterCompany + Render(issue) + AfterIssue + Render(deadline) + Ending(v))
            == Some(NoticeFields(company, issue, deadline))
  {
    if issue.year >= 1000 && deadline.year >= 1000 {
      RenderRoundTrip(issue);
      RenderRoundTrip(deadline);
      TemplateOffsets(Greeting, company, AfterCompany, Render(issue), AfterIssue, Render(deadline), Ending(v));
    }
  }

  /** Where the three fields of a template sit, given only the lengths of its fixed parts. */
  lemma TemplateOffsets(p: string, c: string, q: string, x: string, r: string, y: string, t: string)
    requires |x| == 10 && |y| == 10
    ensures var b := p + c + q + x + r + y + t;
            var n := |b| - (|p| + |q| + 10 + |r| + 10 + |t|);
            && n == |c|
            && b[|p|..|p| + n] == c
            && b[|p| + n + |q|..|p| + n + |q| + 10] == x
            && b[|p| + n + |q| + 10 + |r|..|p| + n + |q| + 10 + |r| + 10] == y
  {
    var b := p + c + q + x + r + y + t;
    var head := p + c + q;
    assert b == head + x + (r + y + t);
    assert b[|head|..|head| + 10] == x;
    var mid := head + x + r;
    assert b == mid + y + t;
    assert b[|mid|..|mid| + 10] == y;
    assert b == p + c + (q + x + r + y + t);
    assert b[|p|..|p| + |c|] == c;
  }

  /** The action the session asks its collaborators for when the offered
      button is pressed. */
  datatype Effect =
    | NoEffect
    | SendEmail(to: string, subject: string, body: string)   // ct.py, through the mail service
    | ShowDraft(company: string, body: string)                 // ct_reg.py, shown for the operator
    | ConvertToPdf(documents: seq<string>)                     // merge the collected texts

  function EffectOf(v: Variant, a: Answers, verdict: Verdict, documents: seq<string>): (r: Effect)
    requires SoundVerdict(verdict)
    ensures r.SendEmail? <==> verdict.Overdue? && v == Dispatching
    ensures r.ShowDraft? <==> verdict.Overdue? && v == Drafting
    ensures r.ConvertToPdf? <==> verdict.OnTime?
    ensures r.ConvertToPdf? ==> r.documents == documents
    ensures r == NoEffect <==> verdict.Failed?
    ensures r.SendEmail? ==> r.to == a.companyEmail && r.subject == Subject
    ensures r.ShowDraft? ==> r.company == a.companyName
  {
    match OfferFor(verdict)
    case None => NoEffect
    case Some(SendEmailButton) =>
      var body := NoticeBody(v, a.companyName, verdict.issue, verdict.deadline);
      if v == Dispatching then SendEmail(a.companyEmail, Subject, body) else ShowDraft(a.companyName, body)
    case Some(ConvertToPdfButton) => ConvertToPdf(documents)
  }

  /** The four terminal instructions of the account checklist. */
  datatype Leaf =
    | CreateAccountManually   // not created, customer replied: create it with e-mail OTP
    | WaitOrResend            // not created, no reply: wait or resend the e-mail
    | LogInWithUaePass        // created, UAE Pass account
    | LogInWithEmail          // created, e-mail account

  datatype Stage =
    | AwaitingEmail
    | AwaitingUploads
    | AwaitingConfirmation
    | DocumentsConfirmed
    | DeadlineEvaluated
    | AccountCheck
    | AccountMissing
    | AccountExists
    | Finished(leaf: Leaf)

  /** Position of a stage along the workflow. */
  function Rank(s: Stage): (r: nat)
    ensures r <= 7
  {
    match s
    case AwaitingEmail => 0
    case AwaitingUploads => 1
    case AwaitingConfirmation => 2
    case DocumentsConfirmed => 3
    case DeadlineEvaluated => 4
    case AccountCheck => 5
    case AccountMissing => 6
    case AccountExists => 6
    case Finished(_) => 7
  }

  /** The session state passed from step to step. */
  datatype Session = Session(stage: Stage, documents: seq<string>, verdict: Option<Verdict>, effect: Effect)

  predicate Consistent(s: Session)
  {
    s.verdict.Some? ==> SoundVerdict(s.verdict.value)
  }

  function Start(v: Variant): Session
  {
    Session(if v == Dispatching then AwaitingEmail else AwaitingUploads, [], None, NoEffect)
  }

  /** One transition. A stage whose answer does not let the session go on
      returns the session unchanged; otherwise the stage moves strictly forward. */
  function Step(v: Variant, a: Answers, s: Session): (t: Session)
    requires Consistent(s)
    ensures Consistent(t)
    ensures t == s || Rank(t.stage) > Rank(s.stage)
  {
    match s.stage
    case AwaitingEmail =>
      if |a.companyEmail| > 0 then s.(stage := AwaitingUploads) else s
    case AwaitingUploads =>
      if |a.uploads| > 0 then s.(stage := AwaitingConfirmation, documents := DocumentTexts(a.uploads)) else s
    case AwaitingConfirmation =>
      if a.allUploaded == Yes then s.(stage := DocumentsConfirmed) else s
    case DocumentsConfirmed =>
      if |a.dateText| > 0 && |a.companyName| > 0 then
        s.(stage := DeadlineEvaluated, verdict := Some(Evaluate(a.dateText, a.today)))
      else s
    case DeadlineEvaluated =>
      var effect := if a.actionPressed && s.verdict.Some? then EffectOf(v, a, s.verdict.value, s.documents) else NoEffect;
      s.(stage := AccountCheck, effect := effect)
    case AccountCheck =>
      s.(stage := if a.accountCreated == No then AccountMissing else AccountExists)
    case AccountMissing =>
      s.(stage := Finished(if a.customerReplied == Yes then CreateAccountManually else WaitOrResend))
    case AccountExists =>
      s.(stage := Finished(if a.accountKind == UaePassAccount then LogInWithUaePass else LogInWithEmail))
    case Finished(_) =>
      s
  }

  /** Steps until the answers let the session go no further. */
  function RunFrom(v: Variant, a: Answers, s: Session): (r: Session)
    requires Consistent(s)
    ensures Consistent(r) && Step(v, a, r) == r
    decreases 7 - Rank(s.stage)
  {
    var t := Step(v, a, s);
    if t == s then s else RunFrom(v, a, t)
  }

  /** A whole session of one page. */
  function Run(v: Variant, a: Answers): (r: Session)
    ensures Consistent(r) && Step(v, a, r) == r
  {
    RunFrom(v, a, Start(v))
  }

  /** ct.py asks for a company e-mail address first; ct_reg.py does not. */
  predicate EmailGatePassed(v: Variant, a: Answers)
  {
    v == Drafting || |a.companyEmail| > 0
  }

  /** The deadline is evaluated only when every earlier gate lets the session through. */
  predicate ReachesEvaluation(v: Variant, a: Answers)
  {
    EmailGatePassed(v, a) && |a.uploads| > 0 && a.allUploaded == Yes && |a.dateText| > 0 && |a.companyName| > 0
  }

  /** The checklist read as a flat decision table. */
  function ChecklistLeaf(a: Answers): (r: Leaf)
    ensures r.CreateAccountManually? <==> a.accountCreated.No? && a.customerReplied.Yes?
    ensures r.WaitOrResend? <==> a.accountCreated.No? && a.customerReplied.No?
    ensures r.LogInWithUaePass? <==> a.accountCreated.Yes? && a.accountKind.UaePassAccount?
    ensures r.LogInWithEmail? <==> a.accountCreated.Yes? && a.accountKind.EmailAccount?
  {
    match a.accountCreated
    case No => (match a.customerReplied case Yes => CreateAccountManually case No => WaitOrResend)
    case Yes => (match a.accountKind case UaePassAccount => LogInWithUaePass case EmailAccount => LogInWithEmail)
  }

  /** Where a session ends, what it evaluated and which action it requested,
      as a function of the operator's answers: each gate in turn can hold the
      session at its stage, and once the deadline is evaluated the checklist
      is always reached, whatever the verdict. */
  lemma RunOutcome(v: Variant, a: Answers)
    ensures Run(v, a).stage ==
      if !EmailGatePassed(v, a) then AwaitingEmail
      else if |a.uploads| == 0 then AwaitingUploads
      else if a.allUploaded == No then AwaitingConfirmation
      else if |a.dateText| == 0 || |a.companyName| == 0 then DocumentsConfirmed
      else Finished(ChecklistLeaf(a))
    ensures Run(v, a).verdict == if ReachesEvaluation(v, a) then Some(Evaluate(a.dateText, a.today)) else None
    ensures Run(v, a).effect ==
      if ReachesEvaluation(v, a) && a.actionPressed
      then EffectOf(v, a, Evaluate(a.dateText, a.today), DocumentTexts(a.uploads))
      else NoEffect
    ensures Run(v, a).documents == if EmailGatePassed(v, a) && |a.uploads| > 0 then DocumentTexts(a.uploads) else []
  {
    var s0 := Start(v);
    if !EmailGatePassed(v, a) {
      assert Step(v, a, s0) == s0;
    } else {
      var s1 := if v == Dispatching then Step(v, a, s0) else s0;
      assert RunFrom(v, a, s0) == RunFrom(v, a, s1);
      RunFromUploads(v, a, s1);
    }
  }

  lemma RunFromUploads(v: Variant, a: Answers, s: Session)
    requires s == Session(AwaitingUploads, [], None, NoEffect)
    ensures RunFrom(v, a, s).stage ==
      if |a.uploads| == 0 then AwaitingUploads
      else if a.allUploaded == No then AwaitingConfirmation
      else if |a.dateText| == 0 || |a.companyName| == 0 then DocumentsConfirmed
      else Finished(ChecklistLeaf(a))
    ensures RunFrom(v, a, s).verdict ==
      if |a.uploads| > 0 && a.allUploaded == Yes && |a.dateText| > 0 && |a.companyName| > 0
      then Some(Evaluate(a.dateText, a.today)) else None
    ensures RunFrom(v, a, s).effect ==
      if |a.uploads| > 0 && a.allUploaded == Yes && |a.dateText| > 0 && |a.companyName| > 0 && a.actionPressed
      then EffectOf(v, a, Evaluate(a.dateText, a.today), DocumentTexts(a.uploads))
      else NoEffect
    ensures RunFrom(v, a, s).documents == if |a.uploads| > 0 then DocumentTexts(a.uploads) else []
  {
    if |a.uploads| == 0 {
      assert Step(v, a, s) == s;
    } else {
      var s2 := Step(v, a, s);
      assert RunFrom(v, a, s) == RunFrom(v, a, s2);
      if a.allUploaded == No {
        assert Step(v, a, s2) == s2;
      } else {
        var s3 := Step(v, a, s2);
        assert RunFrom(v, a, s2) == RunFrom(v, a, s3);
        RunFromConfirmed(v, a, s3);
      }
    }
  }

  lemma RunFromConfirmed(v: Variant, a: Answers, s: Session)
    requires s.stage == DocumentsConfirmed && s.verdict.None? && s.effect == NoEffect
    ensures RunFrom(v, a, s) ==
      if |a.dateText| == 0 || |a.companyName| == 0 then s
      else
        var verdict := Evaluate(a.dateText, a.today);
        s.(stage := Finished(ChecklistLeaf(a)), verdict := Some(verdict),
           effect := if a.actionPressed then EffectOf(v, a, verdict, s.documents) else NoEffect)
  {
    if |a.dateText| == 0 || |a.companyName| == 0 {
      assert Step(v, a, s) == s;
    } else {
      var s4 := Step(v, a, s);
      assert RunFrom(v, a, s) == RunFrom(v, a, s4);
      RunFromEvaluated(v, a, s4);
    }
  }

  lemma RunFromEvaluated(v: Variant, a: Answers, s: Session)
    requires s.stage == DeadlineEvaluated && s.verdict.Some? && SoundVerdict(s.verdict.value)
    ensures RunFrom(v, a, s) ==
      s.(stage := Finished(ChecklistLeaf(a)),
         effect := if a.actionPressed then EffectOf(v, a, s.verdict.value, s.documents) else NoEffect)
  {
    var effect := if a.actionPressed then EffectOf(v, a, s.verdict.value, s.documents) else NoEffect;
    var s5 := s.(stage := AccountCheck, effect := effect);
    assert Step(v, a, s) == s5;
    var s6 := s5.(stage := if a.accountCreated == No then AccountMissing else AccountExists);
    assert Step(v, a, s5) == s6;
    var s7 := s5.(stage := Finished(ChecklistLeaf(a)));
    assert Step(v, a, s6) == s7;
    assert Step(v, a, s7) == s7;
    assert RunFrom(v, a, s6) == s7;
    assert RunFrom(v, a, s5) == s7;
  }

  /** ct.py: without a company e-mail address nothing happens at all. */
  lemma NoEmailNoProgress(a: Answers)
    requires |a.companyEmail| == 0
    ensures Run(Dispatching, a) == Start(Dispatching)
  {
    RunOutcome(Dispatching, a);
  }

  /** ct_reg.py has no e-mail gate: the address typed, if any, changes nothing. */
  lemma DraftingIgnoresEmail(a: Answers, email: string)
    ensures Run(Drafting, a) == Run(Drafting, a.(companyEmail := email))
  {
    RunOutcome(Drafting, a);
    RunOutcome(Drafting, a.(companyEmail := email));
  }

  /** Answering "No" to "all documents uploaded?" stops the session before any
      deadline evaluation, and it stays at the confirmation question. */
  lemma DeclinedUploadStops(v: Variant, a: Answers)
    requires a.allUploaded == No
    ensures Run(v, a).verdict.None? && Run(v, a).effect == NoEffect
    ensures EmailGatePassed(v, a) && |a.uploads| > 0 ==> Run(v, a).stage == AwaitingConfirmation
  {
    RunOutcome(v, a);
  }

  /** Evaluation needs both a date text and a company name; once it happens
      the checklist is reached, even when the date was rejected or no deadline
      could be computed. */
  lemma ChecklistFollowsEvaluation(v: Variant, a: Answers)
    ensures Run(v, a).verdict.Some? <==> ReachesEvaluation(v, a)
    ensures Run(v, a).stage.Finished? <==> ReachesEvaluation(v, a)
    ensures ReachesEvaluation(v, a) ==> Run(v, a).verdict == Some(Evaluate(a.dateText, a.today))
  {
    RunOutcome(v, a);
  }

  /** The account checklist has four terminal instructions and the answers pick exactly one. */
  lemma ChecklistLeaves(v: Variant, a: Answers)
    requires ReachesEvaluation(v, a)
    ensures Run(v, a).stage == Finished(CreateAccountManually) <==> a.accountCreated == No && a.customerReplied == Yes
    ensures Run(v, a).stage == Finished(WaitOrResend) <==> a.accountCreated == No && a.customerReplied == No
    ensures Run(v, a).stage == Finished(LogInWithUaePass) <==> a.accountCreated == Yes && a.accountKind == UaePassAccount
    ensures Run(v, a).stage == Finished(LogInWithEmail) <==> a.accountCreated == Yes && a.accountKind == EmailAccount
  {
    RunOutcome(v, a);
  }

  /** Pressing the offered button requests exactly one action: the notice when
      past due, the PDF conversion of the collected texts otherwise, nothing
      when the evaluation failed. */
  lemma ActionMatchesVerdict(v: Variant, a: Answers)
    requires ReachesEvaluation(v, a) && a.actionPressed
    ensures var verdict := Evaluate(a.dateText, a.today);
            && (Run(v, a).effect.SendEmail? <==> verdict.Overdue? && v == Dispatching)
            && (Run(v, a).effect.ShowDraft? <==> verdict.Overdue? && v == Drafting)
            && (Run(v, a).effect == ConvertToPdf(DocumentTexts(a.uploads)) <==> verdict.OnTime?)
            && (Run(v, a).effect == NoEffect <==> verdict.Failed?)
  {
    RunOutcome(v, a);
  }

  /** ct.py sends the notice to the company address, and the company name,
      issue date and deadline can all be read back from it. */
  lemma NoticeSentToCompany(a: Answers)
    requires ReachesEvaluation(Dispatching, a) && a.actionPressed
    ensures var verdict := Evaluate(a.dateText, a.today);
            verdict.Overdue? && verdict.issue.year >= 1000 ==>
            && Run(Dispatching, a).effect.SendEmail?
            && Run(Dispatching, a).effect.to == a.companyEmail
            && Run(Dispatching, a).effect.subject == Subject
            && ReadNotice(Dispatching, Run(Dispatching, a).effect.body)
               == Some(NoticeFields(a.companyName, verdict.issue, verdict.deadline))
  {
    RunOutcome(Dispatching, a);
    var verdict := Evaluate(a.dateText, a.today);

  }

  /** Issue date 15-01-2024 checked on 01-06-2024: the first range gives
      31-05-2024, which is past due. */
  lemma PastDueScenario(text: string)
    requires text == "15-01-2024"
    ensures Evaluate(text, Date(2024, 6, 1)) == Overdue(Date(2024, 1, 15), Date(2024, 5, 31))
    ensures OfferFor(Evaluate(text, Date(2024, 6, 1))) == Some(SendEmailButton)
  {
    assert text[..2] == "15" && text[3..5] == "01" && text[6..] == "2024";
    ParseFifteenJanuary(text);
    TableExamples();
  }

  /** A deadline falling on today is not past due: the page offers the PDF conversion. */
  lemma DeadlineTodayIsOnTime(text: string)
    requires text == "15-01-2024"
    ensures Evaluate(text, Date(2024, 5, 31)) == OnTime(Date(2024, 1, 15), Date(2024, 5, 31))
    ensures OfferFor(Evaluate(text, Date(2024, 5, 31))) == Some(ConvertToPdfButton)
  {
    assert text[..2] == "15" && text[3..5] == "01" && text[6..] == "2024";
    ParseFifteenJanuary(text);
    TableExamples();
  }

  /** A rejected date text still lets the session reach the checklist. */
  lemma RejectedDateScenario(a: Answers)
    requires a.dateText == "31-13-2024"
    requires ReachesEvaluation(Drafting, a)
    ensures Run(Drafting, a).verdict == Some(Failed(BadDate(NotACalendarDate)))
    ensures Run(Drafting, a).stage == Finished(ChecklistLeaf(a))
    ensures Run(Drafting, a).effect == NoEffect
  {
    ParseRejectsMonth13(a.dateText);
    RunOutcome(Drafting, a);
  }
}
