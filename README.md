# JustBook waitlist registry, modelled in Dafny

This project models the server side of the JustBook landing page's waitlist.
Visitors join with an email address and can leave again. Each join and each
leave sends one HTML mail. A counter record `{signups, surveyTaps}` sits next
to the list of registrants. It counts registrants and survey taps.

The model has three parts.

- **The registry stores** (`app/actions.ts`). There are three JSON files: the
  registered addresses, the opt-out addresses and the stats record.
  - The class `WaitlistService.Waitlist` holds them as the fields `registered`,
    `optOuts` and `stats`. A missing or unreadable stats file is `None`.
  - Each server action is a method that reads a field, changes the value it
    got and writes it back, as the source does.
  - Each method is proved to leave the stores exactly as a function of module
    `Registry` says: `Join`, `Unsubscribe`, `SurveyTap`, `AfterGetStats`,
    `AfterUpdateStats`, `AfterSave`, `AfterRemove` and `AdminView`.
  - Module `RegistryProperties` proves what those functions promise:
    - duplicate prevention, and which error answers which bad input;
    - the self-healing stats read;
    - `signups` equal to the registry's length after every successful action;
    - opt-out reconciliation on re-join, and a join/leave/join round trip;
    - the survey tap counting by exactly one per call;
    - neither list ever holding an address twice.
- **The submitted address** (module `EmailAddress`).
  - Normalisation is `toLowerCase()` then `trim()`, with JavaScript's
    whitespace set.
  - The pattern `^[^\s@]+@[^\s@]+\.[^\s@]+$` is written as a ghost predicate.
    An executable check is proved equivalent to it.
- **The mail** (module `EmailTemplate`). `generateEmailHtml` builds the welcome
  or the goodbye message from a shared header, a body for the chosen kind and a
  shared footer.
  - The styled markup is cut down to short constants. They keep the logo
    reference, the two badges, the headings, the words right around the name
    and the address, the tagline and the copyright line. The styles and the
    rest of the text are elided (see "## Left out").
  - Where the display name and the address are interpolated is kept exactly.

Outside effects become parameters.

- `configured` says whether both mail credentials are set.
- `delivered` is the mail transport's verdict on the welcome mail.
- Each action returns the `Mail` it hands to the transport, or `None` when it
  sends none. A mail is its recipient and its kind; `Mail.Html()` renders it
  with `generateEmailHtml`.

Re-joining after an opt-out removes the address from the opt-out list. That is
what `saveEmail` in `app/actions.ts` does.

## Model

| member | source | states |
|---|---|---|
| Sequences.IndexOf | app/actions.ts:85 | The index is -1 exactly when the address is absent; otherwise it holds the address and is its first occurrence |
| Sequences.Without | app/actions.ts:74 | The result no longer holds the value, keeps every other element (multiset equation), is the input unchanged when the value was absent and is shorter when it was present |
| Sequences.RemoveAt | app/actions.ts:87 | `splice(i, 1)`: one element shorter, elements before `i` in place, elements after it shifted down by one |
| Sequences.RemoveAtMultiset | app/actions.ts:87 | Splicing out position `i` removes exactly one copy of the element there and keeps everything else |
| Sequences.WithoutSingleton | app/actions.ts:74 | On a one-element list the filter keeps the element exactly when it differs from the value |
| Sequences.WithoutConcat | app/actions.ts:74 | Filtering a concatenation is filtering each part and joining the results in order; with `WithoutSingleton` this fixes the result, so the kept elements stay in their original order |
| Sequences.WithoutAppendSame | app/actions.ts:66-81 | Filtering out an address that was just appended leaves the list as it was before the append |
| Sequences.WithoutKeepsNoDuplicates | app/actions.ts:74 | Filtering a duplicate-free list keeps it duplicate-free |
| Sequences.AppendKeepsNoDuplicates | app/actions.ts:68-69 | Appending an address the list does not hold keeps it duplicate-free |
| Sequences.RemoveAtKeepsNoDuplicates | app/actions.ts:85-87 | Splicing an element out of a duplicate-free list keeps it duplicate-free |
| Sequences.RemoveAtIndexOfRemovesAll | app/actions.ts:85-87 | In a duplicate-free list, cutting out the first occurrence leaves no occurrence at all |
| EmailAddress.IsWhitespace | app/actions.ts:102-104 | JavaScript's white-space set, shared by `trim()` and `\s`; it has no contract of its own and is used by `Trim`, `IsValidEmail` and `MatchesEmailPattern` |
| EmailAddress.LowerCase | app/actions.ts:102 | Same length, each character mapped by the ASCII lower-casing, and no upper-case letter left |
| EmailAddress.Trim | app/actions.ts:102 | The result is a contiguous piece of the input, neither starts nor ends with whitespace, and everything cut off on either side is whitespace |
| EmailAddress.Normalize | app/actions.ts:102 | The normalised address neither starts nor ends with whitespace |
| EmailAddress.NormalizedHasNoUpper | app/actions.ts:102 | A normalised address has no upper-case ASCII letter |
| EmailAddress.TrimOfTrimmed | app/actions.ts:102 | Trimming text that has no surrounding whitespace leaves it unchanged |
| EmailAddress.NormalizeIdempotent | app/actions.ts:132 | Normalising twice gives the same address as normalising once, so the stored form is a fixed point |
| EmailAddress.MatchesEmailPattern | app/actions.ts:104 | The language of the regex: a run, `@`, a run, `.`, a run, with no white space or `@` in any run; no contract of its own, it is the reference that `ValidEmailIffPattern` ties `IsValidEmail` to |
| EmailAddress.IsValidEmail | app/actions.ts:104-105 | The executable address check; no contract of its own, `ValidEmailIffPattern` proves it accepts exactly the regex's language |
| EmailAddress.ValidEmailIffPattern | app/actions.ts:104-105 | The executable check accepts an address exactly when it matches the pattern: a non-empty run, `@`, a non-empty run, `.`, a non-empty run, where no run holds whitespace or `@` |
| EmailAddress.ValidEmailMatchesPattern | app/actions.ts:104-105 | Every address the check accepts matches the pattern |
| EmailAddress.PatternMatchIsValidEmail | app/actions.ts:104-105 | Every address that matches the pattern is accepted by the check |
| EmailAddress.MalformedAddressesRejected | app/actions.ts:103-105 | The empty string, `foo`, `foo@`, `@bar.com`, `a@@x.com` and `a b@x.com` are rejected |
| EmailAddress.WellFormedAddressesAccepted | app/actions.ts:104-105 | `a@x.com` and `a@b.c.d` are accepted |
| EmailAddress.SubdomainAddressAccepted | app/actions.ts:104-105 | An address with several dots after the `@` is accepted |
| EmailTemplate.KindOrDefault | components/email-template.tsx:9-10 | A missing `type` gives the welcome kind; a given one is used as is |
| EmailTemplate.DisplayName | components/email-template.tsx:11 | A non-empty name is used as given; a missing or empty name gives `Friend`; the result is never empty |
| EmailTemplate.Body | components/email-template.tsx:35-80 | The body of either kind: badge markup, badge, heading, display name, middle text, address, closing text; no contract of its own, `MessageContents` and `BodiesDiffer` state its properties |
| EmailTemplate.GenerateEmailHtml | components/email-template.tsx:9-106 | Every message, of either kind, starts with the shared logo header and ends with the shared footer |
| EmailTemplate.MessageContents | components/email-template.tsx:28-80 | The message carries its kind's badge right after the badge markup, the embedded logo reference, the display name and the address |
| EmailTemplate.BodiesDiffer | components/email-template.tsx:35-80 | For the same name and address, the welcome body and the goodbye body differ (in the badge colour) |
| EmailTemplate.KindsGiveDifferentMessages | components/email-template.tsx:35-80 | For the same name and address, the welcome message and the goodbye message differ |
| EmailTemplate.DefaultKindIsWelcome | components/email-template.tsx:9-10 | Leaving `type` out renders exactly the welcome message |
| EmailTemplate.NameCanCarryTheOtherBadge | components/email-template.tsx:41 | The name is interpolated unescaped: a welcome message for someone named `Opt-Out Successful` holds both badges |
| Registry.Reconciled | app/actions.ts:23-39 | What `getStats` returns: `signups` is the live registry count; `surveyTaps` is the stored count, or 0 without a readable record |
| Registry.AfterGetStats | app/actions.ts:23-39 | After the read, the record is in step with the registry and equals the returned value; the lists are untouched; a record that needed no repair is not rewritten |
| Registry.Merge | app/actions.ts:43 | Each field given in the update overwrites the current one; each field not given keeps its current value |
| Registry.AfterUpdateStats | app/actions.ts:41-46 | Only the stats record changes, and it becomes the reconciled record with the given fields overwritten |
| Registry.SubmittedEmail | app/actions.ts:102 | The submitted address is lower-cased and trimmed, so it never starts or ends with white space; a missing form field gives the empty string |
| Registry.AfterSave | app/actions.ts:66-81 | The stores after `saveEmail`; no contract of its own, `JoinSuccessEffect` and `JoinSucceeds` state the append at the end and the opt-out filter |
| Registry.AfterRemove | app/actions.ts:83-99 | The stores after `removeEmail`; no contract of its own, `UnsubscribeSucceeds` and `UnsubscribeEffect` state the splice of the first occurrence and the opt-out record |
| Registry.Join | app/actions.ts:101-129 | The outcome of `joinWaitlist`; no contract of its own, `JoinResponses`, `JoinFailureChangesNothing`, `JoinSuccessEffect`, `JoinIgnoresDelivery` and `JoinKeepsNoDuplicates` state its properties |
| Registry.Unsubscribe | app/actions.ts:131-149 | The outcome of `unsubscribeWaitlist`; no contract of its own, `UnsubscribeResponses`, `UnsubscribeEffect` and `UnsubscribeKeepsNoDuplicates` state its properties |
| Registry.SurveyTap | app/actions.ts:151-159 | The outcome of `trackSurveyTap`; no contract of its own, `SurveyTapAddsOne` and `TapsCount` state its properties |
| Registry.AdminView | app/actions.ts:165-170 | What `getAdminData` returns; no contract of its own, `AdminViewReadsOnly` states its properties |
| WaitlistService.Waitlist.GetRegisteredEmails | app/actions.ts:48-55 | Returns the stored registrations |
| WaitlistService.Waitlist.GetOptOutEmails | app/actions.ts:57-64 | Returns the stored opt-outs |
| WaitlistService.Waitlist.GetStats | app/actions.ts:23-39 | Returns the reconciled stats, reports whether the record was rewritten exactly when it needed repair, and leaves the stores as `AfterGetStats` says |
| WaitlistService.Waitlist.UpdateStats | app/actions.ts:41-46 | Returns and stores the reconciled record with the given fields overwritten; the lists are untouched |
| WaitlistService.Waitlist.SaveEmail | app/actions.ts:66-81 | Appends the address (and drops it from the opt-outs) exactly when it was not registered; reports which happened |
| WaitlistService.Waitlist.RemoveEmail | app/actions.ts:83-99 | Cuts out the first occurrence and records an opt-out (once) exactly when the address was registered; reports which happened |
| WaitlistService.Waitlist.JoinWaitlist | app/actions.ts:101-129 | The new stores, the answer and the mail are those of `Join`; both lists stay free of duplicates; after a success the address is registered and not an opt-out |
| WaitlistService.Waitlist.UnsubscribeWaitlist | app/actions.ts:131-149 | The new stores, the answer and the mail are those of `Unsubscribe`; both lists stay free of duplicates; after a success the address is an opt-out, and, when the lists had no duplicates, no longer registered |
| WaitlistService.Waitlist.TrackSurveyTap | app/actions.ts:151-159 | The new stores and the answer are those of `SurveyTap`; no mail is sent |
| WaitlistService.Waitlist.GetLiveStats | app/actions.ts:161-163 | Returns the reconciled stats and repairs the stored record as `getStats` does |
| WaitlistService.Waitlist.GetAdminData | app/actions.ts:165-170 | Returns both lists as stored with the reconciled stats; only the stats record may be repaired |
| RegistryProperties.ErrorTextsDistinct | app/actions.ts:103-148 | The five error texts are pairwise different, and only the duplicate error carries a follow-up message |
| Registry.ErrorCode.Text | app/actions.ts:103-148 | The `error` string of each refusal (lines 103, 105, 109, 113 and 148); no contract of its own, `ErrorTextsDistinct` proves the five strings pairwise different |
| Registry.ErrorCode.Message | app/actions.ts:113 | The `message` string, carried only by the duplicate refusal; no contract of its own, `ErrorTextsDistinct` proves only `ALREADY_REGISTERED` has one |
| Registry.Response.Warning | app/actions.ts:127 | The `warning` string of a success whose mail was lost; no contract of its own, `JoinIgnoresDelivery` proves it present exactly when delivery failed |
| Registry.Mail.Html | app/actions.ts:118 | The HTML handed to the transport, rendered by `generateEmailHtml` with the recipient and the kind and no name; no contract of its own, `MailIsAddressedToItsRecipient` states its properties |
| Registry.Mail.Subject | app/actions.ts:122 | The subject line of each kind (line 122 for the welcome mail, 142 for the goodbye mail); no contract of its own, `SubjectsDiffer` proves the two differ |
| RegistryProperties.SubjectsDiffer | app/actions.ts:122-142 | For any recipient, the welcome mail and the goodbye mail have different subject lines |
| RegistryProperties.MailIsAddressedToItsRecipient | app/actions.ts:118-124 | A mail's HTML names its recipient and carries the badge of its kind in the badge slot |
| RegistryProperties.JoinResponses | app/actions.ts:101-129 | Which answer a join gives, as an if-and-only-if for each: the first failing check (missing, malformed, unconfigured, duplicate, in that order) picks the error, and a join succeeds exactly when the address is well-formed, mail is configured and the address is not registered |
| RegistryProperties.JoinSucceeds | app/actions.ts:112-125 | A join that passes every check has exactly one outcome: the address appended at the end, the opt-out list filtered, `signups` one more with the taps kept, success with a warning exactly when the mail was lost, one welcome mail |
| RegistryProperties.JoinFailureChangesNothing | app/actions.ts:103-113 | A refused join changes no store and sends no mail |
| RegistryProperties.JoinSuccessEffect | app/actions.ts:115-125 | A successful join appends the normalised address at the end, removes it from the opt-outs, sets `signups` to one more while keeping the tap count, and sends one welcome mail to it |
| RegistryProperties.JoinIgnoresDelivery | app/actions.ts:115-128 | A failed delivery changes only the answer's warning, which is present exactly when the mail was lost: the stores, the success and the mail are the same as with a delivered mail |
| RegistryProperties.JoinKeepsNoDuplicates | app/actions.ts:112-117 | Joining keeps both lists free of duplicates |
| RegistryProperties.SecondJoinIsDuplicate | app/actions.ts:112-113 | After a successful join, the same submission is refused as already registered |
| RegistryProperties.UnsubscribeResponses | app/actions.ts:131-149 | An unsubscribe succeeds exactly when the normalised address is registered; otherwise it answers not-found, changes nothing and sends no mail |
| RegistryProperties.UnsubscribeEffect | app/actions.ts:131-147 | A successful unsubscribe answers without a warning, removes one copy of the address and keeps every other entry, records it as an opt-out unless it is one already, sets `signups` to one less, keeps the tap count, and sends one goodbye mail to it |
| RegistryProperties.UnsubscribeSucceeds | app/actions.ts:131-147 | An unsubscribe of a registered address has exactly one outcome: its first occurrence spliced out with the rest kept in order, an opt-out recorded unless present, `signups` the new length with the taps kept, success without warning, one goodbye mail |
| RegistryProperties.UnsubscribeKeepsNoDuplicates | app/actions.ts:83-99 | Unsubscribing keeps both lists free of duplicates |
| RegistryProperties.SecondUnsubscribeFails | app/actions.ts:83-98 | In a duplicate-free registry, unsubscribing the same address twice: the second call answers not-found |
| RegistryProperties.RejoinAfterUnsubscribe | app/actions.ts:66-99 | Join, leave, join again: the leave and the second join both succeed, and the stores end as after the first join: the address appended once, gone from the opt-outs, `signups` one more than before, the tap count kept |
| RegistryProperties.GetStatsRepairs | app/actions.ts:23-39 | A missing record is recreated as the live count with no taps; a stored tap count is kept; a record in step is returned and left as it is |
| RegistryProperties.UpdateStatsOverwritesGivenFields | app/actions.ts:41-46 | After `updateStats`, a given field has the given value and a field not given has its reconciled value |
| RegistryProperties.SignupsTrackRegistry | app/actions.ts:112-136 | After a stats read, a tap, a successful join or a successful unsubscribe, `signups` equals the registry's length; a store in step stays in step after any join or unsubscribe |
| RegistryProperties.SurveyTapAddsOne | app/actions.ts:151-159 | One tap adds exactly one to the reconciled tap count and leaves both lists unchanged |
| RegistryProperties.TapsCount | app/actions.ts:151-159 | N taps in a row add exactly N to the tap count and leave both lists unchanged |
| RegistryProperties.AdminViewReadsOnly | app/actions.ts:165-170 | The admin view is both lists as stored and the repaired stats; reading it changes neither list |
| RegistryProperties.JoinTwiceThenLeave | app/actions.ts:101-149 | From empty stores: the first join succeeds with `signups` 1; the second is refused as a duplicate and changes nothing; leaving succeeds with `signups` 0 and the address recorded as an opt-out |

## Left out

- Reading and writing the JSON files are not modelled as I/O. A missing or corrupt list file reads as an empty list, as in the source, so the model starts from lists.
- Write failures are not modelled. So the `Failed to track tap` answer of `trackSurveyTap` is absent. In `joinWaitlist`, one `catch` covers the save, the counter update and the mail alike. A save or counter update that throws is therefore answered as a success with the mail warning, and may leave the stores half-written. The model only covers the mail failing, through `delivered`.
- Registry.SurveyTap: the counts are unbounded integers, while the source's are JavaScript numbers (doubles). `stats.surveyTaps + 1` and `emails.length + 1` are exact only up to 2^53, so `SurveyTapAddsOne` and `TapsCount` hold in the source only below that count.
- A stats file that parses but lacks a field, or holds a non-number, is not modelled; the record is either a pair of integers or absent. The same holds for a list file holding valid JSON that is not an array.
- The mail transport (SMTP host, sender address, attachment) is not modelled. The welcome mail's delivery is the `delivered` parameter. The goodbye mail's fate is ignored, as in the source.
- Console logging is not modelled.
- Concurrency is not modelled. Every action runs alone, so lost updates of the counter between overlapping requests are out of scope.
- The form value is a string or absent. Non-string form values are not modelled.
- EmailAddress.LowerCase: maps only the ASCII letters. JavaScript's `toLowerCase` also maps non-ASCII letters.
- A Dafny `char` here is a Unicode scalar value, while a JavaScript string is a sequence of UTF-16 code units, so a character outside the Basic Multilingual Plane is one `char` in the model and two code units in the source. No proved property depends on this: the pattern, `trim` and the white-space set treat each half of a surrogate pair like any other character that is neither white space nor `@`.
- The template's styles and most of its text are elided. This covers the opening sentence "You've just taken the first step toward reclaiming your time." and the closing words "to Zambia's premier booking platform" of the welcome paragraph, the mission box and the "Explore the Vision" button of the welcome message, the "You will no longer receive updates" note of the goodbye message, the Website/Twitter/Instagram links and the closing reason line. Only the logo reference, the badges, the headings, the sentence around the name and the address, the tagline and the copyright line are kept, with the interpolation points exact.
- The waitlist never passes a name to the template, so every mail it sends greets `Friend`. Names are still modelled in `GenerateEmailHtml`.
- The subject line of the welcome mail holds mis-decoded bytes of an emoji in the source. The model keeps those characters as they are.
- EmailTemplate.MessageContents: states where the kind's badge sits, not that the other kind's badge is absent. That absence does not hold in general: the name is interpolated unescaped (see `NameCanCarryTheOtherBadge`).
- The pages, forms, admin dashboard and survey widget are not part of this model.
