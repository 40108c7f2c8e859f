/**
 * The waitlist registry as values: the three stored files and what each
 * server action makes of them. These functions are the specification that
 * the `Waitlist` class in WaitlistService is proved against.
 *
 * The stores are `emails.json` (the registered addresses, in insertion
 * order), `opt-outs.json` (addresses that left) and `stats.json`. A file
 * that is missing or does not parse reads as the empty list, and the stats
 * record as `None`. Every write is assumed to succeed.
 */
module Registry {
  import opened Optional
  import opened Sequences
  import opened EmailAddress
  import Template = EmailTemplate

  /** The stats record `{ signups, surveyTaps }`. */
  datatype Stats = Stats(signups: int, surveyTaps: int)

  /** The partial record handed to `updateStats`; an absent field is left alone. */
  datatype StatsUpdate = StatsUpdate(signups: Option<int>, surveyTaps: Option<int>)

  /** What the three files hold. */
  datatype Store = Store(registered: seq<string>, optOuts: seq<string>, stats: Option<Stats>)

  /** The errors an action reports. */
  datatype ErrorCode = EmailRequired | InvalidEmail | ConfigError | AlreadyRegistered | NotFound {
    /** The `error` string of the returned object. */
    function Text(): string {
      match this
      case EmailRequired => "Email is required"
      case InvalidEmail => "Invalid email address"
      case ConfigError => "Server configuration error"
      case AlreadyRegistered => "ALREADY_REGISTERED"
      case NotFound => "Email not found on waitlist."
    }

    /** The `message` string, which only the duplicate error carries. */
    function Message(): Option<string> {
      if AlreadyRegistered? then Some("You are already on the waitlist!") else None
    }
  }

  /**
   * The object a server action returns: `{ success: true }`, or with a
   * `warning` when `warned`, or `{ error, message? }`.
   */
  datatype Response = Success(warned: bool) | Failure(code: ErrorCode) {
    function Warning(): Option<string> {
      if Success? && warned then Some("Joined, but confirmation email failed.") else None
    }
  }

  /**
   * One message handed to the mail transport: its recipient and which of the
   * two templates it renders; the subject and the HTML follow from those.
   */
  datatype Mail = Mail(to: string, kind: Template.Kind) {
    function Subject(): string {
      match kind
      // the rocket emoji of the source's subject, stored mis-decoded in the source file
      case Welcome => "Welcome to the JustBook Waitlist! \U{F0}\U{178}\U{161}\U{20AC}"
      case Unsubscribe => "Removed from JustBook Waitlist"
    }

    function Html(): string {
      Template.GenerateEmailHtml(to, None, Some(kind))
    }
  }

  /** The stores after an action, its response, and the mail it tried to send, if any. */
  datatype Outcome = Outcome(store: Store, response: Response, mail: Option<Mail>)

  /** What `getAdminData` returns. */
  datatype AdminData = AdminData(registered: seq<string>, optOuts: seq<string>, stats: Stats)

  /** The stored `signups` agrees with the registry. */
  predicate Synced(st: Store) {
    st.stats.Some? && st.stats.value.signups == |st.registered|
  }

  /** `getStats` rewrites the record exactly when it is missing, corrupt or out of date. */
  predicate NeedsRepair(st: Store) {
    st.stats.None? || st.stats.value.signups != |st.registered|
  }

  /**
   * What `getStats` returns: `signups` is always the live registry count;
   * `surveyTaps` is kept from the stored record, or 0 when there is none.
   */
  function Reconciled(st: Store): (s: Stats)
    ensures s.signups == |st.registered|
    ensures st.stats.Some? ==> s.surveyTaps == st.stats.value.surveyTaps
    ensures st.stats.None? ==> s.surveyTaps == 0
  {
    match st.stats
    case Some(stored) => stored.(signups := |st.registered|)
    case None => Stats(|st.registered|, 0)
  }

  /** The stores after `getStats`: only the stats record changes, and only when it needed repair. */
  function AfterGetStats(st: Store): (st': Store)
    ensures Synced(st')
    ensures st'.registered == st.registered && st'.optOuts == st.optOuts
    ensures st'.stats == Some(Reconciled(st))
    ensures !NeedsRepair(st) ==> st' == st
  {
    if NeedsRepair(st) then st.(stats := Some(Reconciled(st))) else st
  }

  /** `{ ...current, ...updates }` */
  function Merge(current: Stats, updates: StatsUpdate): (next: Stats)
    ensures next.signups == if updates.signups.Some? then updates.signups.value else current.signups
    ensures next.surveyTaps == if updates.surveyTaps.Some? then updates.surveyTaps.value else current.surveyTaps
  {
    Stats(updates.signups.GetOr(current.signups), updates.surveyTaps.GetOr(current.surveyTaps))
  }

  /** The stores after `updateStats(updates)`: the reconciled record with the given fields overwritten. */
  function AfterUpdateStats(st: Store, updates: StatsUpdate): (st': Store)
    ensures st'.registered == st.registered && st'.optOuts == st.optOuts
    ensures st'.stats == Some(Merge(Reconciled(st), updates))
  {
    st.(stats := Some(Merge(Reconciled(st), updates)))
  }

  /** The stores after `saveEmail(email)`. */
  function AfterSave(st: Store, email: string): Store {
    if email !in st.registered then
      st.(registered := st.registered + [email], optOuts := Without(st.optOuts, email))
    else st
  }

  /** The stores after `removeEmail(email)`. */
  function AfterRemove(st: Store, email: string): Store {
    var i := IndexOf(st.registered, email);
    if i > -1 then
      st.(registered := RemoveAt(st.registered, i),
          optOuts := if email in st.optOuts then st.optOuts else st.optOuts + [email])
    else st
  }

  /** The form field, lower-cased and trimmed; a missing field is treated like an empty one. */
  function SubmittedEmail(rawEmail: Option<string>): (email: string)
    ensures IsTrimmed(email)
    ensures rawEmail.None? ==> email == []
  {
    match rawEmail
    case Some(raw) => Normalize(raw)
    case None => ""
  }

  /**
   * `joinWaitlist`: the checks in order (present, well-formed, mail
   * configured, not yet registered), then save, counter update and one
   * welcome mail; `delivered` is the transport's verdict on that mail.
   */
  function Join(st: Store, rawEmail: Option<string>, configured: bool, delivered: bool): Outcome {
    var email := SubmittedEmail(rawEmail);
    if email == [] then Outcome(st, Failure(EmailRequired), None)
    else if !IsValidEmail(email) then Outcome(st, Failure(InvalidEmail), None)
    else if !configured then Outcome(st, Failure(ConfigError), None)
    else if email in st.registered then Outcome(st, Failure(AlreadyRegistered), None)
    else
      var saved := AfterSave(st, email);
      var updated := AfterUpdateStats(saved, StatsUpdate(Some(|st.registered| + 1), None));
      Outcome(updated, Success(!delivered), Some(Mail(email, Template.Welcome)))
  }

  /**
   * `unsubscribeWaitlist`: no validation and no configuration check; remove,
   * recount, and one goodbye mail whose fate does not matter.
   */
  function Unsubscribe(st: Store, rawEmail: string): Outcome {
    var email := Normalize(rawEmail);
    if email in st.registered then
      var removed := AfterRemove(st, email);
      var updated := AfterUpdateStats(removed, StatsUpdate(Some(|removed.registered|), None));
      Outcome(updated, Success(false), Some(Mail(email, Template.Unsubscribe)))
    else Outcome(st, Failure(NotFound), None)
  }

  /** `trackSurveyTap`: read the reconciled stats, then write back one more tap. */
  function SurveyTap(st: Store): Outcome {
    var current := Reconciled(st);
    var read := AfterGetStats(st);
    Outcome(AfterUpdateStats(read, StatsUpdate(None, Some(current.surveyTaps + 1))), Success(false), None)
  }

  /** `getAdminData`: both lists as stored, and the reconciled stats. */
  function AdminView(st: Store): AdminData {
    AdminData(st.registered, st.optOuts, Reconciled(st))
  }
}
