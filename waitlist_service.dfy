/**
 * The server actions of the waitlist, performed step by step on the stored
 * files the way the source does it: each action reads a file, changes the
 * list or record it got, and writes it back. Each method is proved to leave
 * the stores as the matching function of Registry says.
 */
module WaitlistService {
  import opened Optional
  import opened Sequences
  import opened EmailAddress
  import Template = EmailTemplate
  import opened Registry
  import Properties = RegistryProperties

  class Waitlist {
    /** `emails.json` */
    var registered: seq<string>
    /** `opt-outs.json` */
    var optOuts: seq<string>
    /** `stats.json`; `None` when missing or unreadable */
    var stats: Option<Stats>
    /** Whether both mail credentials are set in the environment. */
    const configured: bool

    /** The three files as one value. */
    function Snapshot(): Store
      reads this
    {
      Store(registered, optOuts, stats)
    }

    /** Neither list holds an address twice. */
    predicate Valid()
      reads this
    {
      NoDuplicates(registered) && NoDuplicates(optOuts)
    }

    constructor (registered: seq<string>, optOuts: seq<string>, stats: Option<Stats>, configured: bool)
      ensures Snapshot() == Store(registered, optOuts, stats)
      ensures this.configured == configured
    {
      this.registered := registered;
      this.optOuts := optOuts;
      this.stats := stats;
      this.configured := configured;
    }

    /** `getRegisteredEmails`: the stored list (empty when the file is missing or corrupt). */
    method GetRegisteredEmails() returns (emails: seq<string>)
      ensures emails == registered
    {
      emails := registered;
    }

    /** `getOptOutEmails`: the stored opt-out list (empty when the file is missing or corrupt). */
    method GetOptOutEmails() returns (emails: seq<string>)
      ensures emails == optOuts
    {
      emails := optOuts;
    }

    /**
     * `getStats`: the self-healing read. `rewritten` says whether the record
     * was written back.
     */
    method GetStats() returns (current: Stats, rewritten: bool)
      modifies this`stats
      ensures current == Reconciled(old(Snapshot()))
      ensures rewritten == NeedsRepair(old(Snapshot()))
      ensures Snapshot() == AfterGetStats(old(Snapshot()))
    {
      match stats
      case Some(stored) =>
        current := stored;
        var emails := GetRegisteredEmails();
        rewritten := false;
        if current.signups != |emails| {
          current := current.(signups := |emails|);
          stats := Some(current);
          rewritten := true;
        }
      case None =>
        var emails := GetRegisteredEmails();
        current := Stats(|emails|, 0);
        stats := Some(current);
        rewritten := true;
    }

    /** `updateStats`: reconcile, overwrite the given fields, write. */
    method UpdateStats(updates: StatsUpdate) returns (next: Stats)
      modifies this`stats
      ensures next == Merge(Reconciled(old(Snapshot())), updates)
      ensures Snapshot() == AfterUpdateStats(old(Snapshot()), updates)
    {
      var current, _ := GetStats();
      next := Merge(current, updates);
      stats := Some(next);
    }

    /**
     * `saveEmail`: append the address unless it is already there, and then
     * drop it from the opt-outs; `saved` says whether it was appended.
     */
    method SaveEmail(email: string) returns (saved: bool)
      modifies this`registered, this`optOuts
      ensures saved <==> email !in old(registered)
      ensures Snapshot() == AfterSave(old(Snapshot()), email)
    {
      var emails := GetRegisteredEmails();
      if email !in emails {
        emails := emails + [email];
        registered := emails;
        var previous := GetOptOutEmails();
        var filtered := Without(previous, email);
        if |previous| != |filtered| {
          optOuts := filtered;
        }
        return true;
      }
      return false;
    }

    /**
     * `removeEmail`: cut out the first occurrence of the address and record
     * it as an opt-out unless it is one already; `removed` says whether it
     * was found.
     */
    method RemoveEmail(email: string) returns (removed: bool)
      modifies this`registered, this`optOuts
      ensures removed <==> email in old(registered)
      ensures Snapshot() == AfterRemove(old(Snapshot()), email)
    {
      var emails := GetRegisteredEmails();
      var index := IndexOf(emails, email);
      if index > -1 {
        emails := RemoveAt(emails, index);
        registered := emails;
        var previous := GetOptOutEmails();
        if email !in previous {
          optOuts := previous + [email];
        }
        return true;
      }
      return false;
    }

    /**
     * `joinWaitlist`. `delivered` is the mail transport's verdict on the
     * welcome mail; `mail` is what was handed to it.
     */
    method JoinWaitlist(rawEmail: Option<string>, delivered: bool) returns (response: Response, mail: Option<Mail>)
      modifies this`registered, this`optOuts, this`stats
      ensures Outcome(Snapshot(), response, mail) == Join(old(Snapshot()), rawEmail, configured, delivered)
      ensures old(Valid()) ==> Valid()
      ensures response.Success? ==> SubmittedEmail(rawEmail) in registered && SubmittedEmail(rawEmail) !in optOuts
    {
      ghost var before := Snapshot();
      if Valid() {
        Properties.JoinKeepsNoDuplicates(before, rawEmail, configured, delivered);
      }
      var email := SubmittedEmail(rawEmail);
      if email == [] {
        return Failure(EmailRequired), None;
      }
      if !IsValidEmail(email) {
        return Failure(InvalidEmail), None;
      }
      if !configured {
        return Failure(ConfigError), None;
      }
      var emails := GetRegisteredEmails();
      if email in emails {
        return Failure(AlreadyRegistered), None;
      }
      var _ := SaveEmail(email);
      var _ := UpdateStats(StatsUpdate(Some(|emails| + 1), None));
      mail := Some(Mail(email, Template.Welcome));
      response := Success(!delivered);
    }

    /** `unsubscribeWaitlist`; `mail` is the goodbye mail handed to the transport. */
    method UnsubscribeWaitlist(rawEmail: string) returns (response: Response, mail: Option<Mail>)
      modifies this`registered, this`optOuts, this`stats
      ensures Outcome(Snapshot(), response, mail) == Unsubscribe(old(Snapshot()), rawEmail)
      ensures old(Valid()) ==> Valid()
      ensures response.Success? ==> Normalize(rawEmail) in optOuts
      ensures old(Valid()) && response.Success? ==> Normalize(rawEmail) !in registered
    {
      ghost var before := Snapshot();
      if Valid() {
        Properties.UnsubscribeKeepsNoDuplicates(before, rawEmail);
        if Normalize(rawEmail) in before.registered {
          RemoveAtIndexOfRemovesAll(before.registered, Normalize(rawEmail));
        }
      }
      var email := Normalize(rawEmail);
      var removed := RemoveEmail(email);
      if removed {
        var emails := GetRegisteredEmails();
        var _ := UpdateStats(StatsUpdate(Some(|emails|), None));
        return Success(false), Some(Mail(email, Template.Unsubscribe));
      }
      return Failure(NotFound), None;
    }

    /** `trackSurveyTap` */
    method TrackSurveyTap() returns (response: Response)
      modifies this`stats
      ensures Outcome(Snapshot(), response, None) == SurveyTap(old(Snapshot()))
    {
      var current, _ := GetStats();
      var _ := UpdateStats(StatsUpdate(None, Some(current.surveyTaps + 1)));
      return Success(false);
    }

    /** `getLiveStats` */
    method GetLiveStats() returns (current: Stats)
      modifies this`stats
      ensures current == Reconciled(old(Snapshot()))
      ensures Snapshot() == AfterGetStats(old(Snapshot()))
    {
      var rewritten;
      current, rewritten := GetStats();
    }

    /** `getAdminData` */
    method GetAdminData() returns (data: AdminData)
      modifies this`stats
      ensures data == AdminView(old(Snapshot()))
      ensures Snapshot() == AfterGetStats(old(Snapshot()))
    {
      var emails := GetRegisteredEmails();
      var previous := GetOptOutEmails();
      var current, _ := GetStats();
      data := AdminData(emails, previous, current);
    }
  }
}
