/**
 * What the waitlist promises, proved about the Registry functions (and so,
 * through their contracts, about the `Waitlist` methods).
 */
module RegistryProperties {
  import opened Optional
  import opened Sequences
  import opened EmailAddress
  import Template = EmailTemplate
  import opened Registry

  /** The tap count every action starts from: that of the reconciled record. */
  function StoredTaps(st: Store): int {
    Reconciled(st).surveyTaps
  }

  /**
   * The client tells the outcomes apart by the `error` string alone: no two
   * error codes share one, and only the duplicate carries a message.
   */
  lemma ErrorTextsDistinct(a: ErrorCode, b: ErrorCode)
    ensures a.Text() == b.Text() <==> a == b
    ensures a.Message().Some? <==> a == AlreadyRegistered
  {
    if a != b {
      assert a.Text()[0] != b.Text()[0] || a.Text()[6] != b.Text()[6];
    }
  }

  /**
   * Every mail the service hands to the transport is addressed to the
   * address it renders, and renders the badge of its own kind.
   */
  lemma MailIsAddressedToItsRecipient(m: Mail)
    ensures Template.Contains(m.Html(), m.to)
    ensures Template.BadgeOffset(m.kind) <= |m.Html()|
    ensures Template.Badge(m.kind) <= m.Html()[Template.BadgeOffset(m.kind)..]
  {
    Template.MessageContents(m.to, None, Some(m.kind));
  }

  /** The two kinds of mail carry different subject lines, whoever they go to. */
  lemma SubjectsDiffer(to: string)
    ensures Mail(to, Template.Welcome).Subject() != Mail(to, Template.Unsubscribe).Subject()
  {
    assert Mail(to, Template.Welcome).Subject()[0] == 'W';
    assert Mail(to, Template.Unsubscribe).Subject()[0] == 'R';
  }

  // ---------------------------------------------------------------- join

  /**
   * Which response a join gets: the checks run in the source's order, and
   * each error names the first check that failed.
   */
  lemma JoinResponses(st: Store, rawEmail: Option<string>, configured: bool, delivered: bool)
    ensures var out := Join(st, rawEmail, configured, delivered);
      var email := SubmittedEmail(rawEmail);
      && (out.response == Failure(EmailRequired) <==> email == [])
      && (out.response == Failure(InvalidEmail) <==> (email != [] && !IsValidEmail(email)))
      && (out.response == Failure(ConfigError) <==> IsValidEmail(email) && !configured)
      && (out.response == Failure(AlreadyRegistered) <==> (IsValidEmail(email) && configured && email in st.registered))
      && (out.response.Success? <==> IsValidEmail(email) && configured && email !in st.registered)
  {
    ValidEmailIffPattern(SubmittedEmail(rawEmail));
  }

  /** A join that fails changes no file and sends no mail. */
  lemma JoinFailureChangesNothing(st: Store, rawEmail: Option<string>, configured: bool, delivered: bool)
    ensures var out := Join(st, rawEmail, configured, delivered);
      out.response.Failure? ==> out.store == st && out.mail == None
  {
    var email := SubmittedEmail(rawEmail);
    if email == [] {
    } else if !IsValidEmail(email) {
    } else if !configured {
    } else if email in st.registered {
    }
  }

  /**
   * A successful join appends the address at the end of the registry,
   * clears it from the opt-outs, sets `signups` to the new registry length,
   * keeps the tap count, and sends exactly one welcome mail to it.
   */
  lemma JoinSuccessEffect(st: Store, rawEmail: Option<string>, configured: bool, delivered: bool)
    ensures var out := Join(st, rawEmail, configured, delivered);
      var email := SubmittedEmail(rawEmail);
      out.response.Success? ==>
        && out.store.registered == st.registered + [email]
        && out.store.optOuts == Without(st.optOuts, email)
        && email !in out.store.optOuts
        && out.store.stats == Some(Stats(|st.registered| + 1, StoredTaps(st)))
        && Synced(out.store)
        && out.mail == Some(Mail(email, Template.Welcome))
  {
    var email := SubmittedEmail(rawEmail);
    if email != [] && IsValidEmail(email) && configured && email !in st.registered {
      JoinSucceeds(st, rawEmail, configured, delivered);
    } else {
      JoinFailureChangesNothing(st, rawEmail, configured, delivered);
    }
  }

  /** The outcome of a join that passes every check, written out. */
  lemma JoinSucceeds(st: Store, rawEmail: Option<string>, configured: bool, delivered: bool)
    requires var email := SubmittedEmail(rawEmail);
      email != [] && IsValidEmail(email) && configured && email !in st.registered
    ensures var email := SubmittedEmail(rawEmail);
      Join(st, rawEmail, configured, delivered)
        == Outcome(Store(st.registered + [email], Without(st.optOuts, email),
                         Some(Stats(|st.registered| + 1, StoredTaps(st)))),
                   Success(!delivered), Some(Mail(email, Template.Welcome)))
  {
  }

  /**
   * The mail transport's verdict never decides whether a join succeeds or
   * what it stores; it only adds the warning.
   */
  lemma JoinIgnoresDelivery(st: Store, rawEmail: Option<string>, configured: bool)
    ensures var sent := Join(st, rawEmail, configured, true);
      var lost := Join(st, rawEmail, configured, false);
      && sent.store == lost.store && sent.mail == lost.mail
      && (sent.response.Success? <==> lost.response.Success?)
      && (sent.response.Success? ==> sent.response.Warning() == None && lost.response.Warning() == Some("Joined, but confirmation email failed."))
  {
    var email := SubmittedEmail(rawEmail);
    if email == [] {
    } else if !IsValidEmail(email) {
    } else if !configured {
    } else if email in st.registered {
    }
  }

  /** Joining keeps both lists free of duplicates. */
  lemma JoinKeepsNoDuplicates(st: Store, rawEmail: Option<string>, configured: bool, delivered: bool)
    requires NoDuplicates(st.registered) && NoDuplicates(st.optOuts)
    ensures var out := Join(st, rawEmail, configured, delivered);
      NoDuplicates(out.store.registered) && NoDuplicates(out.store.optOuts)
  {
    var email := SubmittedEmail(rawEmail);
    if email != [] && IsValidEmail(email) && configured && email !in st.registered {
      AppendKeepsNoDuplicates(st.registered, email);
      WithoutKeepsNoDuplicates(st.optOuts, email);
    }
  }

  /** Submitting the same address twice: the second join is refused as a duplicate. */
  lemma SecondJoinIsDuplicate(st: Store, rawEmail: Option<string>, configured: bool, delivered: bool, delivered2: bool)
    requires Join(st, rawEmail, configured, delivered).response.Success?
    ensures var again := Join(Join(st, rawEmail, configured, delivered).store, rawEmail, configured, delivered2);
      again.response == Failure(AlreadyRegistered)
  {
    var email := SubmittedEmail(rawEmail);
    assert Join(st, rawEmail, configured, delivered).store.registered == st.registered + [email];
    assert email in st.registered + [email];
  }

  // --------------------------------------------------------- unsubscribe

  /**
   * An unsubscribe succeeds exactly when the normalised address is
   * registered; otherwise it reports not-found and changes nothing.
   */
  lemma UnsubscribeResponses(st: Store, rawEmail: string)
    ensures var out := Unsubscribe(st, rawEmail);
      && (out.response.Success? <==> Normalize(rawEmail) in st.registered)
      && (out.response.Failure? ==>
            out.response == Failure(NotFound) && out.store == st && out.mail == None)
  {
    if Normalize(rawEmail) in st.registered {
      UnsubscribeSucceeds(st, rawEmail);
    }
  }

  /**
   * A successful unsubscribe cuts out one occurrence of the address and
   * leaves every other entry, records the address as an opt-out exactly
   * once, recounts `signups` and sends one goodbye mail.
   */
  lemma UnsubscribeEffect(st: Store, rawEmail: string)
    ensures var out := Unsubscribe(st, rawEmail);
      var email := Normalize(rawEmail);
      out.response.Success? ==>
        && out.response == Success(false)
        && multiset(out.store.registered) == multiset(st.registered) - multiset{email}
        && out.store.optOuts == (if email in st.optOuts then st.optOuts else st.optOuts + [email])
        && out.store.stats == Some(Stats(|st.registered| - 1, StoredTaps(st)))
        && Synced(out.store)
        && out.mail == Some(Mail(email, Template.Unsubscribe))
  {
    var email := Normalize(rawEmail);
    if email in st.registered {
      UnsubscribeSucceeds(st, rawEmail);
      RemoveAtMultiset(st.registered, IndexOf(st.registered, email));
    } else {
      UnsubscribeResponses(st, rawEmail);
    }
  }

  /** The outcome of an unsubscribe whose address is registered, written out. */
  lemma UnsubscribeSucceeds(st: Store, rawEmail: string)
    requires Normalize(rawEmail) in st.registered
    ensures var email := Normalize(rawEmail);
      var rest := RemoveAt(st.registered, IndexOf(st.registered, email));
      Unsubscribe(st, rawEmail)
        == Outcome(Store(rest, if email in st.optOuts then st.optOuts else st.optOuts + [email],
                         Some(Stats(|rest|, StoredTaps(st)))),
                   Success(false), Some(Mail(email, Template.Unsubscribe)))
  {
  }

  /** Unsubscribing keeps both lists free of duplicates. */
  lemma UnsubscribeKeepsNoDuplicates(st: Store, rawEmail: string)
    requires NoDuplicates(st.registered) && NoDuplicates(st.optOuts)
    ensures var out := Unsubscribe(st, rawEmail);
      NoDuplicates(out.store.registered) && NoDuplicates(out.store.optOuts)
  {
    var email := Normalize(rawEmail);
    if email in st.registered {
      RemoveAtKeepsNoDuplicates(st.registered, IndexOf(st.registered, email));
      if email !in st.optOuts {
        AppendKeepsNoDuplicates(st.optOuts, email);
      }
    }
  }

  /**
   * In a registry without duplicates, an address that has been unsubscribed
   * is gone: unsubscribing it again is refused as not found.
   */
  lemma SecondUnsubscribeFails(st: Store, rawEmail: string)
    requires NoDuplicates(st.registered)
    ensures Unsubscribe(Unsubscribe(st, rawEmail).store, rawEmail).response == Failure(NotFound)
  {
    var email := Normalize(rawEmail);
    if email in st.registered {
      RemoveAtIndexOfRemovesAll(st.registered, email);
    }
  }

  /**
   * Round trip: join, unsubscribe, join again. An opt-out never locks an
   * address out; at the end the registry is the original one plus the
   * address, the opt-out history no longer mentions it, and the tap count
   * is untouched.
   */
  lemma RejoinAfterUnsubscribe(st: Store, raw: string, delivered1: bool, delivered2: bool)
    requires Join(st, Some(raw), true, delivered1).response.Success?
    ensures var first := Join(st, Some(raw), true, delivered1);
      var left := Unsubscribe(first.store, raw);
      var again := Join(left.store, Some(raw), true, delivered2);
      && left.response.Success? && again.response.Success?
      && again.store.registered == st.registered + [Normalize(raw)]
      && again.store.optOuts == Without(st.optOuts, Normalize(raw))
      && again.store.stats == Some(Stats(|st.registered| + 1, StoredTaps(st)))
  {
    var email := Normalize(raw);
    var first := Join(st, Some(raw), true, delivered1);
    JoinResponses(st, Some(raw), true, delivered1);
    JoinSuccessEffect(st, Some(raw), true, delivered1);
    var s1 := first.store;
    assert IndexOf(s1.registered, email) == |st.registered|;
    assert RemoveAt(s1.registered, |st.registered|) == st.registered;
    assert StoredTaps(s1) == StoredTaps(st);
    UnsubscribeSucceeds(s1, raw);
    var left := Unsubscribe(s1, raw);
    var s2 := left.store;
    assert s2.registered == st.registered;
    assert s2.optOuts == Without(st.optOuts, email) + [email];
    assert StoredTaps(s2) == StoredTaps(st);
    JoinResponses(s2, Some(raw), true, delivered2);
    JoinSuccessEffect(s2, Some(raw), true, delivered2);
    WithoutAppendSame(Without(st.optOuts, email), email);
  }

  // --------------------------------------------------------------- stats

  /**
   * `getStats` on a missing or corrupt record returns and writes
   * `{ signups: <registry length>, surveyTaps: 0 }`; on a present record it
   * keeps the tap count and rewrites nothing when `signups` already agrees.
   */
  lemma GetStatsRepairs(st: Store)
    ensures st.stats.None? ==> AfterGetStats(st).stats == Some(Stats(|st.registered|, 0))
    ensures st.stats.Some? ==> Reconciled(st).surveyTaps == st.stats.value.surveyTaps
    ensures Synced(st) ==> AfterGetStats(st) == st && Reconciled(st) == st.stats.value
  {
  }

  /** `updateStats` overwrites exactly the fields it is given. */
  lemma UpdateStatsOverwritesGivenFields(st: Store, updates: StatsUpdate)
    ensures var next := AfterUpdateStats(st, updates).stats.value;
      && (updates.signups.Some? ==> next.signups == updates.signups.value)
      && (updates.signups.None? ==> next.signups == |st.registered|)
      && (updates.surveyTaps.Some? ==> next.surveyTaps == updates.surveyTaps.value)
      && (updates.surveyTaps.None? ==> next.surveyTaps == StoredTaps(st))
  {
  }

  /**
   * `signups` equals the registry length after every action that succeeds,
   * and an agreeing record stays agreeing whatever an action does.
   */
  lemma SignupsTrackRegistry(st: Store, rawEmail: Option<string>, raw: string, configured: bool, delivered: bool)
    ensures Synced(AfterGetStats(st)) && Synced(SurveyTap(st).store)
    ensures Join(st, rawEmail, configured, delivered).response.Success? ==> Synced(Join(st, rawEmail, configured, delivered).store)
    ensures Unsubscribe(st, raw).response.Success? ==> Synced(Unsubscribe(st, raw).store)
    ensures Synced(st) ==> Synced(Join(st, rawEmail, configured, delivered).store) && Synced(Unsubscribe(st, raw).store)
  {
    UnsubscribeEffect(st, raw);
    UnsubscribeResponses(st, raw);
    JoinSuccessEffect(st, rawEmail, configured, delivered);
    JoinFailureChangesNothing(st, rawEmail, configured, delivered);
  }

  /** One tap adds exactly one to `surveyTaps` and leaves both lists alone. */
  lemma SurveyTapAddsOne(st: Store)
    ensures var out := SurveyTap(st);
      && out.response == Success(false)
      && out.store.registered == st.registered && out.store.optOuts == st.optOuts
      && out.store.stats == Some(Stats(|st.registered|, StoredTaps(st) + 1))
  {
  }

  /** The stores after `n` taps in a row. */
  function Taps(st: Store, n: nat): Store
    decreases n
  {
    if n == 0 then st else Taps(SurveyTap(st).store, n - 1)
  }

  /** `n` taps in a row raise `surveyTaps` by exactly `n`. */
  lemma {:induction false} TapsCount(st: Store, n: nat)
    requires n > 0
    decreases n
    ensures Taps(st, n).registered == st.registered && Taps(st, n).optOuts == st.optOuts
    ensures Taps(st, n).stats == Some(Stats(|st.registered|, StoredTaps(st) + n))
  {
    SurveyTapAddsOne(st);
    if n > 1 {
      TapsCount(SurveyTap(st).store, n - 1);
    }
  }

  /** Reading the dashboard data changes neither list. */
  lemma AdminViewReadsOnly(st: Store)
    ensures AdminView(st) == AdminData(st.registered, st.optOuts, AfterGetStats(st).stats.value)
    ensures AfterGetStats(st).registered == st.registered && AfterGetStats(st).optOuts == st.optOuts
  {
  }

  // ------------------------------------------------------------ scenario

  /**
   * On empty stores: join an address, join it again, unsubscribe it. The
   * first join succeeds and counts one signup, the second is a duplicate,
   * and the unsubscribe empties the registry and records one opt-out.
   */
  lemma JoinTwiceThenLeave(raw: string, delivered: bool)
    requires IsValidEmail(Normalize(raw))
    ensures var email := Normalize(raw);
      var st0 := Store([], [], None);
      var j1 := Join(st0, Some(raw), true, delivered);
      var j2 := Join(j1.store, Some(raw), true, delivered);
      var u := Unsubscribe(j2.store, raw);
      && j1.response == Success(!delivered) && j1.store == Store([email], [], Some(Stats(1, 0)))
      && j2.response == Failure(AlreadyRegistered) && j2.store == j1.store
      && u.response == Success(false) && u.store == Store([], [email], Some(Stats(0, 0)))
  {
    var s1 := Store([Normalize(raw)], [], Some(Stats(1, 0)));
    FirstJoin(raw, delivered);
    JoinResponses(s1, Some(raw), true, delivered);
    JoinFailureChangesNothing(s1, Some(raw), true, delivered);
    LeaveAlone(raw);
  }

  /** The first join on empty stores registers the address and counts one signup. */
  lemma FirstJoin(raw: string, delivered: bool)
    requires IsValidEmail(Normalize(raw))
    ensures var j1 := Join(Store([], [], None), Some(raw), true, delivered);
      j1.response == Success(!delivered) && j1.store == Store([Normalize(raw)], [], Some(Stats(1, 0)))
  {
    var st0 := Store([], [], None);
    JoinSuccessEffect(st0, Some(raw), true, delivered);
    JoinResponses(st0, Some(raw), true, delivered);
    assert StoredTaps(st0) == 0;
    assert [] + [Normalize(raw)] == [Normalize(raw)];
  }

  /** The only registered address leaves: the registry empties and the opt-out is recorded. */
  lemma LeaveAlone(raw: string)
    ensures var email := Normalize(raw);
      var u := Unsubscribe(Store([email], [], Some(Stats(1, 0))), raw);
      u.response == Success(false) && u.store == Store([], [email], Some(Stats(0, 0)))
  {
    var email := Normalize(raw);
    var s1 := Store([email], [], Some(Stats(1, 0)));
    assert IndexOf([email], email) == 0 && RemoveAt([email], 0) == [];
    UnsubscribeSucceeds(s1, raw);
    assert StoredTaps(s1) == 0;
  }
}
