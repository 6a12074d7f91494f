# Registration deadline and workflow model

A Dafny model of the decision logic shared by the two Streamlit pages of the
FTA registration flow, `ct.py` and `ct_reg.py`:

- **Issue-date text** (`DateText`): every `/` is turned into `-`, then the text
  is read as day-month-year (`%d-%m-%Y`) and checked as a calendar date. The
  notice renders dates as `%d/%m/%Y`.
- **Calendar** (`Dates`): Python `datetime.date` semantics. That means the
  proleptic Gregorian calendar for years 1..9999, field-wise comparison, and
  day arithmetic through the day number where 0001-01-01 is day 1. Adding days
  past 9999-12-31 overflows.
- **Deadline rule engine** (`DeadlineRules`): an issue date strictly after
  2024-03-01 gets issue date + 90 days. Any other date is looked up by
  (month, day) in an ordered table of eight ranges, each mapping to a fixed
  2024 deadline. "Past due" means the deadline lies strictly before an explicit
  `today`.
- **Upload-to-text mapping** (`Uploads`): each upload, in order, becomes its
  decoded text or a "Binary file: …" placeholder. Text files whose read fails
  are dropped.
- **Workflow** (`Workflow`): one session is a state machine over stages, driven
  by the operator's answers. The stages are e-mail gate (ct.py only), uploads,
  "all uploaded?", date and company name, deadline verdict, notify-or-convert
  button, and the four-leaf account checklist. The two pages are the two
  `Variant`s: `Dispatching` is ct.py and `Drafting` is ct_reg.py. The I/O
  actions are not performed. They are recorded as the `Effect` the session
  requests: send the notice, show the notice, or merge the texts into a PDF.

Three behaviours of the code shape the model:

- A malformed date with a company name present still reaches the account
  checklist. The later use of the unbound `input_date` raises, the broad
  `except` (ct.py:178, ct_reg.py:155) reports it, and the checklist that
  follows is shown regardless.
- A failed send does not hold the session: `send_email_via_sendgrid` catches
  its own error (ct.py:22-23). A failed conversion raises into the same
  `except` as above. In both cases the checklist is shown after it.
- When the table function falls through to `return None` (ct.py:131),
  `calculated_date` stays unbound and the comparison at ct.py:146 raises into
  the same `except`. The model names this case `Unmapped` and proves that no
  valid date reaches it.

## Model

| member | source | states |
|---|---|---|
| Dates.OrdinalOrder | ct.py:136 | comparing dates field by field (as Python does) is the same as comparing their day numbers; two valid dates are equal iff their day numbers are |
| Dates.NextMonthStart | ct.py:137 | the first of the next month exists unless the date is in December 9999, and lies exactly (days left in the month + 1) days later |
| Dates.AddDays | ct.py:137 | `date + timedelta(days=n)`: succeeds iff the day number + n does not pass 9999-12-31, and then gives the valid date whose day number is exactly n larger, crossing month and year ends |
| Dates.AddDaysIsLater | ct_reg.py:114 | adding a positive number of days gives a strictly later date |
| DateText.Normalize | ct.py:103 | keeps the length, turns every '/' into '-' and changes no other character |
| DateText.Parse | ct.py:102-107 | an accepted text always names a valid calendar date (year 1..9999, month 1..12, day within the month) |
| DateText.ParseIgnoresSeparatorKind | ct.py:103-105 | two texts that differ only in using '/' or '-' at the same places parse to the same result, success or error |
| DateText.Decimal | ct_reg.py:131 | the year digits spell the year back, and their count k satisfies 10^(k-1) <= year < 10^k |
| DateText.Render | ct_reg.py:131 | `%d/%m/%Y`: two digits of day, '/', two digits of month, '/', then the decimal digits of the year; the text is ten characters long iff the year has four digits |
| DateText.RenderRoundTrip | ct_reg.py:131 | parsing the `%d/%m/%Y` rendering of a valid date gives that date back iff its year has four digits (1000..9999) |
| DateText.ParsedDateRoundTrips | ct_reg.py:77-80 | a date read from text with a four-digit year survives rendering and reading again |
| DateText.ParseFifteenJanuary | ct.py:103-105 | "15-01-2024", "15/01/2024", "15-01/2024" and "15/01-2024" all name 15 January 2024 |
| DateText.ParseShortFields | ct.py:105 | single-digit day and month are accepted: "1/3/2024" is 1 March 2024 |
| DateText.ParseLeapDay | ct_reg.py:80 | "29-02-2024" is accepted as leap day |
| DateText.ParseRejectsMonth13 | ct.py:104-107 | "31-13-2024" is rejected |
| DateText.ParseRejectsFebruary30 | ct.py:104-107 | "30-02-2024" is rejected as no calendar date |
| DateText.ParseRejectsLeapDayOfCommonYear | ct_reg.py:79-82 | "29-02-2023" is rejected as no calendar date |
| DateText.ParseRejectsOtherLayouts | ct_reg.py:79-82 | year-first text, a two-digit year and empty text are rejected as malformed |
| DeadlineRules.FirstMatch | ct.py:115-131 | the ranges are tried in order: the answer is the first range holding (month, day), and None iff no range holds it |
| DeadlineRules.Lookup | ct.py:113-131 | the answer is the deadline of the first range, in table order, holding (month, day), and None iff no range holds it |
| DeadlineRules.BucketOf | ct.py:115-130 | every valid (month, day) lies in the range its month selects |
| DeadlineRules.TablePartitions | ct.py:113-131 | every valid (month, day), Feb 29 included, lies in exactly one of the eight ranges |
| DeadlineRules.LookupTotal | ct_reg.py:90-108 | the table lookup never falls through for a valid (month, day), and its answer is that range's deadline, a valid 2024 date |
| DeadlineRules.LeapDayBucket | ct_reg.py:92-95 | Feb 29 maps to 31 May 2024 and Mar 1 to 30 Jun 2024 |
| DeadlineRules.TableAscends | ct_reg.py:92-107 | the eight deadlines strictly increase down the table |
| DeadlineRules.BucketsAscend | ct_reg.py:92-107 | a later (month, day) never selects an earlier range |
| DeadlineRules.LookupMonotone | ct_reg.py:90-108 | the table deadline never decreases as (month, day) increases |
| DeadlineRules.Deadline | ct.py:134-141 | a computed deadline is a valid date strictly after the issue date; after 2024-03-01 it is exactly 90 days on and exists iff that stays within 9999-12-31; on or before 2024-03-01 it always exists and is the deadline of the range holding the issue date's (month, day) |
| DeadlineRules.DeadlineIgnoresYear | ct.py:113-114 | on or before the cutover, issue dates with equal month and day get equal deadlines whatever their years |
| DeadlineRules.DeadlineFailsOnlyByOverflow | ct_reg.py:113-118 | computing the deadline fails iff the issue date is after the cutover and + 90 days passes 9999-12-31, and the error is then `Overflow`, never `Unmapped` |
| DeadlineRules.PastDue | ct.py:146 | past due iff the deadline's day number is below today's; a deadline equal to today is not past due |
| DeadlineRules.GracePeriodExamples | ct.py:136-137 | 15-04-2024 gives 14-07-2024, 15-11-2024 gives 13-02-2025, and 01-12-9999 overflows |
| DeadlineRules.TableExamples | ct_reg.py:113-118 | 15-01-2024 and 29-02-2024 give 31-05-2024, 01-03-2024 gives 30-06-2024, 15-12-2023 gives 31-12-2024 |
| DeadlineRules.DeadlineNotMonotone | ct_reg.py:87-118 | 01-03-2024 gives 30-06-2024 but the later 02-03-2024 gives the earlier 31-05-2024 |
| Uploads.DocumentTexts | ct.py:76-89 | never more texts than uploads, and exactly as many iff no text file failed to read |
| Uploads.DocumentTextsContents | ct.py:80-89 | every collected text is the decoded content or placeholder of some readable upload, and every readable upload contributes its text |
| Uploads.DocumentTextsAppend | ct_reg.py:51-64 | the texts of two upload lists put together are the texts of the first followed by those of the second (order is kept) |
| Uploads.DocumentTextsSingle | ct_reg.py:55-64 | one upload gives its decoded text if it is text and readable, the "Binary file: <name> (cannot be previewed as text)" note if it is not text, and nothing if its read fails |
| Workflow.Evaluate | ct.py:134-146 | a verdict names a parsed issue date, its computed deadline (strictly later) and whether that deadline is before today; it is Overdue or OnTime whenever the text parses and the deadline can be computed, and an error verdict is a date error iff the text was rejected |
| Workflow.OfferFor | ct.py:146-174 | exactly one button is offered when the evaluation succeeds: Send Email iff past due, Convert to PDF otherwise; none after an error |
| Workflow.NoticeBody | ct.py:151-161 | the notice embeds the company name, issue date and deadline so that all three are read back from it unchanged (four-digit years) |
| Workflow.EffectOf | ct.py:146-176 | the pressed button asks to send the notice to the company address with the fixed subject (ct.py) or show it (ct_reg.py) iff past due, to convert the collected texts iff on time, and for nothing iff the evaluation failed |
| Workflow.TemplateOffsets | ct.py:151-161 | in a template of fixed parts and two 10-character dates, the company name and both dates sit at offsets fixed by the lengths of the parts |
| Workflow.Step | ct.py:66-205 | a step either leaves the session unchanged (the answer holds it) or moves it strictly forward, and keeps every verdict's dates valid and ordered |
| Workflow.RunFrom | ct_reg.py:47-184 | a session runs until no answer moves it further |
| Workflow.RunOutcome | ct.py:66-205 | the final stage, verdict, requested action and collected texts of a whole session, as a function of the answers: each gate holds the session in turn, and after evaluation the checklist is always reached |
| Workflow.Run | ct.py:63-205 | a whole session from its start ends where no answer moves it further, with every verdict sound |
| Workflow.RunFromUploads | ct_reg.py:47-82 | from the upload stage: no uploads holds, "No" holds at the question, else the rest follows |
| Workflow.RunFromConfirmed | ct_reg.py:111-156 | with both date text and company name the session is evaluated and finishes at the checklist; otherwise it holds |
| Workflow.RunFromEvaluated | ct_reg.py:155-182 | after the verdict the pressed button's action is requested and the checklist leaf reached, whatever the verdict |
| Workflow.NoEmailNoProgress | ct.py:66-67 | ct.py without a company e-mail never leaves its start |
| Workflow.DraftingIgnoresEmail | ct_reg.py:36-47 | in ct_reg.py the e-mail answer changes nothing |
| Workflow.DeclinedUploadStops | ct.py:92-95 | answering "No" to "all uploaded?" means no evaluation and no action, and the session stays at that question |
| Workflow.ChecklistLeaf | ct.py:183-205 | the four checklist outcomes, each iff its answers: not created and replied, not created and no reply, created with UAE Pass, created with e-mail |
| Workflow.ChecklistFollowsEvaluation | ct.py:134-186 | the deadline is evaluated iff every gate is passed (e-mail, uploads, "Yes", date text and company name), and exactly then the checklist is reached, even if the evaluation failed |
| Workflow.ChecklistLeaves | ct_reg.py:158-182 | the four leaves, each iff its answers: not created and replied, not created and no reply, created with UAE Pass, created with e-mail |
| Workflow.ActionMatchesVerdict | ct.py:146-176 | pressing the button sends (ct.py) or shows (ct_reg.py) the notice iff past due, converts the collected texts iff on time, does nothing iff the evaluation failed |
| Workflow.NoticeSentToCompany | ct.py:149-163 | ct.py sends the notice to the company e-mail address with the fixed subject, and the company name, issue date and deadline are read back from its body |
| Workflow.PastDueScenario | ct_reg.py:113-123 | issue 15-01-2024 checked on 01-06-2024: deadline 31-05-2024, past due, Send Email offered |
| Workflow.DeadlineTodayIsOnTime | ct.py:143-146 | issue 15-01-2024 checked on 31-05-2024: the deadline is today, not past due, Convert to PDF offered |
| Workflow.RejectedDateScenario | ct_reg.py:77-163 | with "31-13-2024" the verdict is a date error, no action is requested, and the checklist is still reached |

## Left out

- Streamlit widgets, layout and reruns. One session is a single pass over a fixed set of answers (`Workflow.Answers`). A radio's default choice is not modelled; the answer is an input.
- Mail delivery through SendGrid (ct.py:9-23), including its API key, and the display-only `send_email_template` (ct_reg.py:6-8). Sending or showing is only the requested `Effect`; its success or failure does not change the session, as in the code.
- PDF generation, the output folder, file writes and the download button (ct.py:26-57, ct_reg.py:11-33). These are foreign library and I/O work. Conversion is the requested `ConvertToPdf` effect carrying the collected texts. An exception raised while converting is not modelled.
- The clock: `datetime.today()` (ct.py:143, ct_reg.py:120) is the `today` answer.
- Reading and UTF-8 decoding of an upload: `Upload.decoded` is their outcome, None when either raises.
- The "proceed with the registration?" radio (ct.py:165-169, ct_reg.py:142-146). It only prints a message.
- Display text: the error, warning and success messages, the uploaded-file list, and the date-error message shown when the company name is still empty.
- DateText.Parse: a simplified grammar, not Python's `strptime`. It takes one or two ASCII digits of day, one or two of month and exactly four of year, then a calendar check. It does not accept a space-padded day (" 1") or non-ASCII digits, which Python does. It reports "shape" and "calendar" failures as two errors where Python raises one ValueError; the page shows one message for both.
- DateText.Render: years below 1000 are written unpadded, as the C library's `%Y` does on Linux. That rendering is platform dependent.
- DeadlineRules.Table: the table holds the dates its labels ("31 May 2024", …) name. The source reads each label back with `%d %b %Y`; that reading is not modelled.
