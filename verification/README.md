# Crib service logic, verified

This project models the calculations and protocols of the Crib property-management backend in Dafny and
proves what they are for. Database tables are maps and sequences of rows, a request is one transaction,
and money is an integer number of cents or an exact rational. Where the program updates objects in place,
the model is a class whose methods are proved against a specification function; what the program promises
is then proved about that function, over all inputs and all runs.

`dafny verify dfyconfig.toml` checks everything.

| module | what it covers |
|---|---|
| Calendar, Buckets, BillingCharts, DashboardSeries | the two ways of listing the last months, and the charts built on them |
| EnglishNumbers, AmountWords, AmountFigures, Decimal | the amounts of a lease agreement in words and in figures |
| Slugs, AgencyInvites, AgencyInviteAnswers, AgencyInviteService | the agency invite protocol and the search for an unused slug |
| StateMachines, LeaseOnboarding, TenantOnboarding | the table machines and the languages they accept |
| Rounding, Channels, Recommendation | channel fees, failure scores and the recommended channel |
| PaymentStates, Retries | payment statuses, bounded retries |
| Allocation, PaymentBooks, PaymentService | distribution of payments over rent schedules, refunds and rejections, and the balance of both over all runs |
| Organisations, OrganisationAnswers, OrganisationService | archive, restore, transfer and landlord assignment |
| Sessions | session invalidation under every interleaving |
| Paging, Aliases, References, RoleMigration | page windows, camelCase aliases, backfilled references, role seeding |
| Transactions, Collections | commit-or-rollback, shared helpers |

## Main results

- Stepping back 28 days at a time lists the last n months for every current month if and only if n <= 12
  (`TwelveIsTheLimit`); charts built on the list lose and double-count nothing (`ChartConserves`, `ChartCompleteIff`).
- A reader of English number words, with a lexicon and a grammar of its own, takes the printed words of n to denote
  n modulo 10^12 (`WordsDenote`), so words and figures of a lease agree exactly below 10^12 (`AgreeIff`), which covers every amount a lease can hold (`LeaseAmountsAgree`).
- Over every run of the invite service: one live invite per email, distinct slugs (`RunKeepsGood`), at most one
  organisation founded per manager (`AtMostOneOrganisation`), completed invites end linked (`CompletedInvitesEndLinked`).
- Exactly when each invite request succeeds and what it changes (`CompleteAnswers`, `CompleteFounds`, `CreateAnswers`).
- Exact languages of the lease and tenant machines (`DraftToActive`, `InvitedToActivated`), unfinished runs included
  (`AcceptedFromDraft`, `AcceptedFromInvited`).
- The recommended channel is the first lexicographic minimum through both sorts (`RecommendedIsFirstMinimal`), and
  exactly when the order of the fee map is irrelevant (`OrderIrrelevantIff`).
- Retries are bounded for any transition table (`RetriesBounded`).
- Exactly when restoring undoes archiving (`RestoreUndoesArchiveIff`), reversing undoes an allocation
  (`ReverseUndoesIff`), an alias can be undone (`AliasUndoneIff`), backfilled references are distinct
  (`ReferencesDistinctIff`) and their unique index can be built (`IndexBuildsIff`). Each condition comes with an
  input that fails it.
- Over every run of payments, refunds, rejections and changes of the schedules, in any order, the schedules show
  exactly what the payments that stand gave them (`RunBalancesExactly`), and each payment is reversed at most once
  (`ReversedAtMostOnce`). With the second refund endpoint the balance moves by a stated amount (`RunShifts`); exactly
  when it stays put, and exactly when no payment loses money to another's refund, is `OrgRefundBalancesIff` and
  `RunSoundIff`.
- Over every run of admin requests, each property's owner is the target of the last request that moved it
  (`RunOwners`).
- In every interleaving, a request is admitted exactly if no invalidation is outstanding when it checks
  (`MarkerIsHistory`, `AdmittedIff`, `AdmittedOnlyAfterRefusal`).

## Where the code and its documentation differ

The model follows the code.

- Invites: the handlers set the status `expired` and then raise, so the session wrapper rolls it back. No run
  stores it (`ExpiryNeverStored`), and an overdue pending invite blocks new ones for its email until it is revoked
  (`OnlyRevokingUnblocks`).
- `retry_payment` documents that only `failed` payments can be retried and that they go back to `pending`. The code
  accepts `retry_scheduled` too and leaves the payment `routed` (`RetryEffect`, `RetryAcceptedIff`). At the limit it
  marks the payment permanently failed and raises, so the mark is rolled back (`LimitNeverFailsPayment`).
- `reverse_allocations` documents that it sets `amount_applied` to 0. It does not, so a second call of the bare
  function would take money off again (`ReverseTwiceIff`). The service never makes that call, because its callers
  first move the payment to a final status (`ReversedAtMostOnce`). An overdue schedule comes back as pending
  (`ReverseForgetsOverdue`).
- `refund_payment_by_org` is documented nowhere as different from `refund_payment`, but it does not look at the
  allocations: it takes the whole amount off the schedule that the client named, and nothing if none was named. So
  it can leave rent paid by a refunded payment (`OrgRefundLeavesRentPaid`) and take rent that another payment paid
  (`OrgRefundTakesRent`).
- `get_overpayment_for_payment` documents 0 for a payment without allocations, such as a deposit. The code yields
  the whole amount (`OverpaymentRecomputed`, `DepositOverpayment`).
- `can_be_rejected` says that failed payments can be rejected, but the transition table refuses them
  (`FailedIsNotRejected`).
- `archive_organisation` documents that manager and owner profiles are deactivated. The code deactivates all live
  profiles of the organisation.
- `assign_landlord_to_agency` remarks that nothing is lost when the personal organisation is archived. With a
  partial list of ids live properties stay behind in it (`LeftBehindIff`), and a landlord who already belongs to the
  agency has the agency archived (`LandlordStaysLiveIff`).
- `clear_stale_marker` documents a call after a successful request with fresh claims. The code calls it on the
  refused request, and a late clear can swallow a newer invalidation (`LateClearSwallowsInvalidation`).
- The payment state machine calls eight statuses terminal; four of them can be left (`FinalIff`).

## Model

| member | source | states |
|---|---|---|
| `Calendar.TwelveIsTheLimit` | backend/billing_analytics_patch.py:189-196 | Stepping back 28 days at a time lists the last n months for every current month if and only if n <= 12 |
| `Calendar.StepsListMonths` | backend/billing_analytics_patch.py:189-196 | Up to 12 entries the 28-day list is the list of consecutive months, whatever the month and year |
| `Calendar.StepsRepeatMarch` | backend/billing_analytics_patch.py:189-196 | From a February, every longer list goes wrong |
| `Calendar.ElevenStepsExact` | backend/billing_analytics_patch.py:190-194 | i <= 11 steps of 28 days from the first of a month cross exactly i month boundaries |
| `Calendar.TwelfthStepFromFebruary` | backend/billing_analytics_patch.py:190-194 | From any February, leap year or not, the twelfth step lands in the same March as the eleventh |
| `Calendar.MonthsCrossed` | backend/billing_analytics_patch.py:191-193 | How many month boundaries a subtraction of k days crosses, for any k |
| `Calendar.TenMonths` | backend/billing_analytics_patch.py:190-194 | No ten consecutive months exceed 306 days: the bound that the eleventh step rests on |
| `Calendar.MinusDaysOrdinal` | backend/billing_analytics_patch.py:192 | Subtracting k days lowers the Gregorian day number by exactly k, so the calendar walk is real date arithmetic |
| `Calendar.OrdinalOrdersDates` | backend/billing_analytics_patch.py:192 | Day numbers order dates as the calendar does and no two dates share one |
| `Calendar.DaysBeforeMonthRule` | backend/billing_analytics_patch.py:192 | The days before each month by the rule of 153 days in five months, with the Gregorian leap year |
| `Calendar.FirstDays` | backend/billing_analytics_patch.py:192 | 1 January of year 1 is day 1 and 1 January 2000 is day 730120 |
| `Calendar.BillingMonths` | backend/billing_analytics_patch.py:189-196 | The loop's list is the first days of the last 12 months, oldest first |
| `Calendar.MonthsBack` | backend/app/services/analytics_service.py:34-45 | The loop's list is the last n months as (year, month), oldest first, for every n |
| `Buckets.BucketsConserve` | backend/app/services/analytics_service.py:359-401 | For any rows and any n, the monthly totals of the last n months add up to the total dated in the window: nothing lost, nothing counted twice |
| `Buckets.ExactlyOneMonth` | backend/app/services/analytics_service.py:377-378 | A date in the window falls in one month of the list and in no other |
| `Buckets.WindowAndLater` | backend/billing_analytics_patch.py:201-210 | What is dated since the first listed month is the window's total plus what is dated after the current month |
| `Buckets.SinceKeepsMonth` | backend/billing_analytics_patch.py:203-209 | The `>= start` filter takes nothing from a listed month's group |
| `BillingCharts.LabelInjective` | backend/billing_analytics_patch.py:198-199 | No two months of any years share a label, so a dict keyed by label keeps every month apart |
| `BillingCharts.GetIsMonthTotal` | backend/billing_analytics_patch.py:203-228 | Filtering, grouping, keying by label and `.get(label, 0)` together give exactly that month's total |
| `BillingCharts.Charts` | backend/billing_analytics_patch.py:189-257 | Every bar of the revenue and growth charts is its own month's total, for all 12 months in order, and each of the three columns adds up to everything dated since the first month less what is dated after the current one |
| `BillingCharts.ChartConserves` | backend/billing_analytics_patch.py:201-252 | Whatever rows are counted, the totals of the 12 months add up to everything dated since the first of them, less what is dated after the current month |
| `BillingCharts.ChartCompleteIff` | backend/billing_analytics_patch.py:201-252 | The totals of a chart show everything since its start if and only if the rows of later months total nothing; with positive amounts, if and only if there are no such rows |
| `BillingCharts.PaymentCounts` | backend/billing_analytics_patch.py:203-210 | One payment more adds its amount to the bar of its month if it is verified and in UGX, and nothing otherwise |
| `BillingCharts.SubscriptionCounts` | backend/billing_analytics_patch.py:212-228 | One subscription more counts as created in its month unless it has no billing cycle, and as cancelled in the month of that |
| `BillingCharts.LabelReads` | backend/billing_analytics_patch.py:198-199 | A label is the English abbreviation of the month and the year |
| `DashboardSeries.RowPerMonth` | backend/app/services/analytics_service.py:358-403 | One row per month of the window, oldest first |
| `DashboardSeries.PaymentCollected` | backend/app/services/analytics_service.py:374-382 | One payment more adds its amount to its month if it is confirmed or completed and in sight |
| `DashboardSeries.ScheduleExpected` | backend/app/services/analytics_service.py:363-394 | One schedule more adds its rent, and a late fee above 0, to its month if its lease is active and in sight |
| `DashboardSeries.IssueCosts` | backend/app/services/analytics_service.py:437-445 | One maintenance issue more adds its cost to the month it was resolved if its property is in sight |
| `DashboardSeries.RevenueColumns` | backend/app/services/analytics_service.py:359-401 | Each of the three columns adds up to the whole window of its query |
| `DashboardSeries.RevenueSeries` | backend/app/services/analytics_service.py:346-403 | Every row holds its month's figures, and collected, expected and late fees each add up to their window |
| `DashboardSeries.CashflowSeries` | backend/app/services/analytics_service.py:408-456 | Every row holds its month's inflow, outflow and net, and the net figures add up to money in less money spent in the window |
| `AmountWords.SpellInjective` | backend/app/core/agreement_template.py:51-56 | No two words of the vocabulary are spelled alike |
| `AmountWords.LexiconSpells` | backend/app/core/agreement_template.py:51-79 | Every entry of the reader's lexicon is how the printer spells that word |
| `AmountWords.InLexicon` | backend/app/core/agreement_template.py:51-79 | The lexicon has every word of the printer |
| `AmountWords.ThreeSpelled` | backend/app/core/agreement_template.py:59-67 | The text of a group of three digits is a list of vocabulary words joined by single spaces |
| `AmountWords.NumberToWords` | backend/app/core/agreement_template.py:70-86 | The loop, which decrements n as it goes, produces text that a reader of English number words, with its own lexicon and grammar, takes to denote floor(x) mod 10^12 |
| `AmountWords.ParseSpelled` | backend/app/core/agreement_template.py:59-86 | The reader recovers the word list from the plain text |
| `AmountWords.ReadWords` | backend/app/core/agreement_template.py:70-86 | The word list of n is a well-formed English number, with each scale below the one before, and denotes n mod 10^12 |
| `AmountWords.WordsDenote` | backend/app/core/agreement_template.py:70-86 | The reader accepts the printed words of any n >= 0 and takes them to denote n mod 10^12 |
| `AmountWords.WordsDenoteExactly` | backend/app/core/agreement_template.py:70-86 | Below 10^12 the reader takes the printed words of n to denote n |
| `AmountWords.WordsInjective` | backend/app/core/agreement_template.py:70-86 | Two amounts below 10^12 never share a wording |
| `AmountWords.TrillionHasNoWords` | backend/app/core/agreement_template.py:73-86 | 10^12 itself is worded as the empty string |
| `AmountFigures.GroupedDigits` | backend/app/core/agreement_template.py:89-90 | Without its commas the figure is the plain decimal text |
| `AmountFigures.GroupedCommas` | backend/app/core/agreement_template.py:89-90 | Commas stand exactly before each third digit from the right, never in front |
| `AmountFigures.FigureDenotes` | backend/app/core/agreement_template.py:89-90 | Reading the figure back gives the number, for every n |
| `AmountFigures.NoLeadingZero` | backend/app/core/agreement_template.py:89-90 | The figure starts with 0 only if it is that of 0 |
| `AmountFigures.FormatDenotes` | backend/app/core/agreement_template.py:89-90 | The figure of an amount denotes it without its cents, dropped towards zero; that of a negative one is that of its opposite behind a minus |
| `AmountFigures.AgreeIff` | backend/app/core/agreement_template.py:518-531 | Words and figure printed for the same amount denote the same integer if and only if it is below 10^12 |
| `AmountFigures.LeaseAmountsAgree` | backend/app/core/agreement_template.py:518-531 | Every rent and deposit that fits Numeric(12, 2) and every advance of up to 12 months of rent is worded as it is written |
| `Slugs.SlugifyYieldsSlug` | backend/app/services/agency_invite_service.py:81-85 | At most 80 characters, lowercase word characters and hyphens only, never two hyphens in a row |
| `Slugs.SlugifyFixes` | backend/app/services/agency_invite_service.py:81-85 | The slugs are exactly the fixed points of the normaliser, which is therefore idempotent |
| `Slugs.SlugIsFixed` | backend/app/services/agency_invite_service.py:81-85 | No stage of the normaliser changes text of slug shape, of any length |
| `Slugs.SlugOfWords` | backend/app/services/agency_invite_service.py:81-85 | A name of words with gaps of white space, underscores and hyphens between them, and white space around, becomes those words in lower case, in full and in order, with one hyphen for each gap, cut to 80 characters |
| `Slugs.OtherCharactersDropped` | backend/app/services/agency_invite_service.py:83 | Punctuation between the ends of a name makes no difference |
| `Slugs.AsciiIsSane` | backend/app/services/agency_invite_service.py:81-85 | The characters of ASCII meet the assumptions on the alphabet |
| `Slugs.CandidateInjective` | backend/app/services/agency_invite_service.py:227-234 | base, base-1, base-2, ... are pairwise distinct |
| `Slugs.TakenBound` | backend/app/services/agency_invite_service.py:229-234 | If the first k candidates are taken there are at least k organisations |
| `Slugs.FirstUnused` | backend/app/services/agency_invite_service.py:227-234 | The answer of the search is unused, and every candidate before it is taken |
| `Slugs.FreshSlug` | backend/app/services/agency_invite_service.py:226-234 | The `while True` loop ends within 1 + (number of slugs in use) probes, at the first unused candidate |
| `AgencyInvites.CreateKeepsGood` | backend/app/services/agency_invite_service.py:91-138 | Creating an invite keeps one live invite per email, distinct tokens, one profile per email and distinct slugs |
| `AgencyInvites.FoundKeepsGood` | backend/app/services/agency_invite_service.py:223-314 | So does founding an agency, with a raise at any of its outside calls |
| `AgencyInvites.CompleteKeepsGood` | backend/app/services/agency_invite_service.py:169-333 | So does every branch of completing an invite |
| `AgencyInvites.StepKeepsGood` | backend/app/services/agency_invite_service.py:91-384 | So does every request inside commit-or-rollback |
| `AgencyInvites.RunKeepsGood` | backend/app/services/agency_invite_service.py:91-384 | So does every run of requests |
| `AgencyInvites.LookupsFindOneRow` | backend/app/services/agency_invite_service.py:99-138 | After every run, the accepted and pending look-ups together, the token look-up and the profile look-up find at most one row |
| `AgencyInvites.FoundsOnlyWithoutOrganisation` | backend/app/services/agency_invite_service.py:203-221 | An organisation is founded only for a manager without one, who then has one and keeps one |
| `AgencyInvites.AtMostOneOrganisation` | backend/app/services/agency_invite_service.py:198-314 | Over every run at most one organisation is founded per manager email, and none for a manager who already has one |
| `AgencyInvites.CompletionLinks` | backend/app/services/agency_invite_service.py:203-314 | A successful completion, on either branch, leaves the invite accepted and linked to the organisation of its manager's profile |
| `AgencyInvites.StepKeepsLinked` | backend/app/services/agency_invite_service.py:91-384 | No request breaks the link of an invite that is no longer pending |
| `AgencyInvites.RunKeepsLinked` | backend/app/services/agency_invite_service.py:91-384 | Nor does any run |
| `AgencyInvites.CompletedInvitesEndLinked` | backend/app/services/agency_invite_service.py:203-314 | Whatever runs before and after it, a completed invite ends linked to its manager profile's organisation |
| `AgencyInvites.ExpiryNeverStored` | backend/app/services/agency_invite_service.py:152-155 | Marking an overdue invite expired is always followed by a raise, so no run ever stores that status |
| `AgencyInvites.LiveBlocks` | backend/app/services/agency_invite_service.py:99-125 | A pending or accepted invite makes a new one for its email fail with 409 |
| `AgencyInvites.StaysLive` | backend/app/services/agency_invite_service.py:144-384 | Only revoking an invite ends its being pending or accepted |
| `AgencyInvites.OnlyRevokingUnblocks` | backend/app/services/agency_invite_service.py:99-125 | Over every run without a revocation of it, an invite, overdue or not, keeps blocking new ones for its email |
| `AgencyInviteAnswers.CreateAnswers` | backend/app/services/agency_invite_service.py:91-141 | Creating succeeds if and only if the email has no pending or accepted invite (and id and token are new), else 409; the new invite is pending and valid for 14 days |
| `AgencyInviteAnswers.LiveInviteBlocks` | backend/app/services/agency_invite_service.py:99-125 | A pending or accepted invite of the email makes it a 409 |
| `AgencyInviteAnswers.ViewAnswers` | backend/app/services/agency_invite_service.py:144-166 | Viewing succeeds if and only if the invite is pending and in date, with no change; 404 for an unknown token, else 410 |
| `AgencyInviteAnswers.CompleteRefusals` | backend/app/services/agency_invite_service.py:188-196 | Completing a missing or no longer pending invite is a 404, an overdue one a 410 |
| `AgencyInviteAnswers.CompleteSettled` | backend/app/services/agency_invite_service.py:208-220 | In date, for a manager in an organisation: accepted now and linked there, and nothing else changes |
| `AgencyInviteAnswers.SlugIsFresh` | backend/app/services/agency_invite_service.py:226-234 | The slug is the name's, or that with the least number behind a hyphen that no organisation has |
| `AgencyInviteAnswers.CompleteFounds` | backend/app/services/agency_invite_service.py:223-314 | In date, for a manager in none: succeeds if and only if nothing outside fails and the new ids are free; then organisation, slug, profile and invite are as stated, field by field |
| `AgencyInviteAnswers.CompleteAnswers` | backend/app/services/agency_invite_service.py:169-333 | Completing succeeds if and only if a pending invite with the token is in date and its manager is in an organisation or can found one |
| `AgencyInviteAnswers.ResendAnswers` | backend/app/services/agency_invite_service.py:343-373 | Resending succeeds if and only if the invite is pending and the e-mail goes out, and moves the expiry to 14 days from now; 404 or 409 otherwise |
| `AgencyInviteAnswers.RevokeAnswers` | backend/app/services/agency_invite_service.py:376-384 | Revoking succeeds if and only if the invite exists, and frees the email of a live one |
| `AgencyInviteAnswers.InviteThenComplete` | backend/app/services/agency_invite_service.py:91-333 | A free email can be invited, and completing within 14 days founds its agency with its manager's profile |
| `AgencyInviteService.Service.CreateInvite` | backend/app/services/agency_invite_service.py:91-141 | Does to the session, and answers, exactly what the specification of creating says, 409 and 500 included |
| `AgencyInviteService.Service.ViewInvite` | backend/app/services/agency_invite_service.py:144-166 | Changes nothing on success; 404 for an unknown token, 410 for an invite that is not pending or is overdue, the latter with an unsaved expiry mark |
| `AgencyInviteService.Service.CompleteOnboarding` | backend/app/services/agency_invite_service.py:169-221 | Look-ups, expiry, idempotency guard or founding leave the session and the answer that the specification of completing gives, unsaved changes included |
| `AgencyInviteService.Service.FoundAgency` | backend/app/services/agency_invite_service.py:223-314 | Slug loop, new organisation, new or reused profile and invite, updated field by field, end as specified wherever an outside call raises |
| `AgencyInviteService.Service.ResendInvite` | backend/app/services/agency_invite_service.py:343-373 | A pending invite gets 14 more days from now; 404 or 409 otherwise, and an e-mail failure leaves the extension unsaved |
| `AgencyInviteService.Service.RevokeInvite` | backend/app/services/agency_invite_service.py:376-384 | The invite becomes revoked whatever its status was; 404 if missing |
| `AgencyInviteService.Service.Serve` | backend/app/core/database.py:36-46 | A request inside the session wrapper commits its state on return, restores the old one on a raise, and keeps the invariant |
| `AgencyInviteService.Service.ServeAll` | backend/app/core/database.py:36-46 | Any number of requests in place is the run the theorems are about |
| `LeaseOnboarding.DraftToActive` | backend/app/core/state_machine.py:80-91 | The event sequences from draft to active are exactly OPENED PREVIEWED ACCEPTED (SUBMITTED FAILED)^k SUBMITTED CONFIRMED SIGNED ACTIVATED, both directions |
| `LeaseOnboarding.FromTermsAccepted` | backend/app/core/state_machine.py:84-90 | From accepted terms, only failed attempts and one that succeeds lead to active |
| `LeaseOnboarding.AttemptsReachActive` | backend/app/core/state_machine.py:84-90 | Any number of failed attempts and one that succeeds does lead there |
| `LeaseOnboarding.ActiveIsAbsorbing` | backend/app/core/state_machine.py:28-38 | No event is accepted in the active state |
| `LeaseOnboarding.RunsCounted` | backend/app/core/state_machine.py:80-91 | Every such run has 7 + 2 * failures events and one more submission than failures |
| `LeaseOnboarding.AcceptedFromDraft` | backend/app/core/state_machine.py:80-91 | The event sequences that a draft accepts are exactly the beginnings of the paths to active: no event leads elsewhere and no run gets stuck |
| `LeaseOnboarding.OffTheWay` | backend/app/core/state_machine.py:80-91 | The machine neither enters nor leaves expired and terminated leases, and never returns to draft |
| `TenantOnboarding.InvitedToActivated` | backend/app/core/state_machine.py:55-68 | The event sequences from invited to activated are exactly: apply, any rounds of rejection and answer, approval, activation |
| `TenantOnboarding.FromSubmitted` | backend/app/core/state_machine.py:58-67 | From submitted, only rounds of rejection followed by approval and activation lead to activated |
| `TenantOnboarding.FromInvited` | backend/app/core/state_machine.py:56-57 | From invited, a run must apply first |
| `TenantOnboarding.RoundReturns` | backend/app/core/state_machine.py:58-67 | Each of the two kinds of round leads from submitted back to submitted |
| `TenantOnboarding.RoundsReachActivated` | backend/app/core/state_machine.py:58-67 | Any list of rounds, then approval and activation, reaches activated |
| `TenantOnboarding.PathEnd` | backend/app/core/state_machine.py:58-62 | The approval is the last event but one, right after a completion or a resubmission |
| `TenantOnboarding.PathTotals` | backend/app/core/state_machine.py:55-68 | The event counts of a path with any rounds |
| `TenantOnboarding.RunsCounted` | backend/app/core/state_machine.py:55-68 | In every run to activation: one approval, right after a completion or resubmission; starts = completions = resent invites + 1; rejections = resent invites + resubmissions |
| `TenantOnboarding.AcceptedFromInvited` | backend/app/core/state_machine.py:55-68 | The event sequences that an invited tenant can go through are exactly the beginnings of the paths to activated |
| `Rounding.HalfEvenIsNearest` | backend/app/services/adaptive_payment_service.py:143-148 | The rounding is to the nearest integer with ties to even, and that determines it |
| `Rounding.HalfEvenMonotone` | backend/app/services/adaptive_payment_service.py:143-148 | Rounding never reverses an order |
| `Rounding.RoundToClose` | backend/app/services/adaptive_payment_service.py:143-203 | Rounding to 2 or 3 places moves a value by at most half a unit of the last place |
| `Rounding.RoundToMonotone` | backend/app/services/adaptive_payment_service.py:143-203 | Rounding to 2 or 3 places is monotone |
| `Rounding.RoundToExact` | backend/app/services/adaptive_payment_service.py:143-203 | It yields exact multiples and leaves those alone |
| `Channels.PutSets` | backend/app/services/adaptive_payment_service.py:84 | Setting one key of the fee map changes that key only and keeps keys distinct |
| `Channels.MergeOverrides` | backend/app/services/adaptive_payment_service.py:74-86 | In the merged map the organisation's fee wins and the default applies to every other channel |
| `Channels.EffectiveFees` | backend/app/services/adaptive_payment_service.py:38-86 | A channel costs what the organisation sets, and otherwise 1 percent for mobile money, 0.5 for bank transfers and nothing for cash and others |
| `Channels.FeeWithinHalfCent` | backend/app/services/adaptive_payment_service.py:143 | A fee is within half a cent of the exact percentage |
| `Channels.FeeGrowsWithAmount` | backend/app/services/adaptive_payment_service.py:143 | A larger amount never has a smaller fee |
| `Channels.FeeGrowsWithPercent` | backend/app/services/adaptive_payment_service.py:143 | A higher percentage never gives a smaller fee |
| `Channels.TotalExact` | backend/app/services/adaptive_payment_service.py:143-149 | For amounts in whole cents the total is the amount plus the fee exactly |
| `Channels.PredictFailureScore` | backend/app/services/adaptive_payment_service.py:164-213 | The step-by-step score is the specified function of base rate, history and penalty, and lies in [0, 1] |
| `Channels.ScoreIsProbability` | backend/app/services/adaptive_payment_service.py:189-203 | The score lies in [0, 1] for every history, well-formed or not |
| `Channels.ScoreMonotone` | backend/app/services/adaptive_payment_service.py:189-203 | With a fixed total, more failed payments never lower the score |
| `Channels.ScoreValue` | backend/app/services/adaptive_payment_service.py:181-203 | With fewer than 3 recent payments the score is the channel's rate (0.12, 0.15, 0.03, 0, 0.05) plus 0.1 for mobile money above 2,000,000; with 3 or more the rounded mean of that rate and the share that failed, plus the same, at most 1, within half a thousandth of the unrounded value |
| `Channels.LastRounding` | backend/app/services/adaptive_payment_service.py:201-203 | The last rounding does nothing |
| `Channels.RateUnique` | backend/app/services/adaptive_payment_service.py:182-189 | The rates are the literal ones |
| `Recommendation.SortSorts` | backend/app/services/adaptive_payment_service.py:152 | The sort used permutes its input and orders it, for every total preorder |
| `Recommendation.SortKeepsFirst` | backend/app/services/adaptive_payment_service.py:152-237 | A stable sort by either key leaves the first minimal offer first among the minimal ones |
| `Recommendation.SortScored` | backend/app/services/adaptive_payment_service.py:230-235 | Scoring sorted estimates is sorting the scored ones, so the two sorts act on one list |
| `Recommendation.RecommendedIsFirstMinimal` | backend/app/services/adaptive_payment_service.py:230-239 | Through both sorts the recommendation is a lexicographic minimum of (fee, score, rank), and of several the one that comes first in the fee map |
| `Recommendation.RecommendedMeans` | backend/app/services/adaptive_payment_service.py:230-239 | Every other offer costs more; or the same and fails more; or is alike in both and is less reliable or later in the fee map |
| `Recommendation.OneComesFirst` | backend/app/services/adaptive_payment_service.py:230-239 | Only one offer is in that position |
| `Recommendation.RankOrder` | backend/app/services/adaptive_payment_service.py:48-54 | Cash is most reliable, then bank transfer, MTN, Airtel, others, and unknown channels last |
| `Recommendation.RetryStrategyBands` | backend/app/services/adaptive_payment_service.py:242-249 | None below 0.1, immediate below 0.3, delayed below 0.6, else the next day |
| `Recommendation.CashByDefault` | backend/app/services/adaptive_payment_service.py:216-239 | Without fees of its own an organisation is recommended cash, at no fee, for every amount, if its cash payments never fail |
| `Recommendation.OrderIrrelevantIff` | backend/app/services/adaptive_payment_service.py:230-239 | It is the same for every order of the fee map if and only if a single offer attains the minimum |
| `Recommendation.UnknownChannelsTie` | backend/app/services/adaptive_payment_service.py:84-239 | Two fee maps of one organisation that differ only in the order of two unknown channels lead to different recommendations |
| `Recommendation.KnownChannelsOneMinimal` | backend/app/services/adaptive_payment_service.py:48-54 | With known channels only, each once, a single offer attains it |
| `Recommendation.FeeMapOrderIrrelevant` | backend/app/services/adaptive_payment_service.py:216-239 | So two orders of a fee map of known channels give the same recommendation |
| `Recommendation.EstimatePaymentCost` | backend/app/services/adaptive_payment_service.py:128-161 | The loop lists exactly one offer per channel of the effective map, by increasing fee and, where equal, by reliability |
| `Recommendation.ScoreEstimates` | backend/app/services/adaptive_payment_service.py:230-235 | The loop gives each estimate its own channel's score |
| `Recommendation.RecommendChannel` | backend/app/services/adaptive_payment_service.py:216-274 | No offer of the effective fee map has a smaller (fee, score, rank), no equally good one stands before it, and strategy and estimates belong to it |
| `Retries.RetryEffect` | backend/app/services/adaptive_payment_service.py:306-357 | For any table: the stored count rises by one with an accepted retry and nothing else, which ends routed with the old failure cleared; a refused one leaves no trace |
| `Retries.RetriesBounded` | backend/app/services/adaptive_payment_service.py:306-357 | Over every run of requests the count moves with accepted retries and never passes max(maxRetries, start), so only finitely many are accepted |
| `Retries.LimitNeverFailsPayment` | backend/app/services/adaptive_payment_service.py:320-331 | At the limit the permanent failure is rolled back with the raise: any number of retries leaves the payment as it was |
| `Retries.RetryAcceptedIff` | backend/app/services/adaptive_payment_service.py:308-357 | With the real table a retry is accepted if and only if the status is retry_scheduled or failed and the count is below the limit |
| `Retries.MarkingAlwaysSucceeds` | backend/app/services/adaptive_payment_service.py:383-408 | Marking a payment failed never raises and always ends in a terminal status with the reason |
| `Retries.OpenCanFail` | backend/app/services/payment_state_machine.py:42-146 | Every status that is not terminal has a transition to permanently_failed |
| `Retries.ExitAllowed` | backend/app/services/payment_state_machine.py:42-122 | Every status but four has a transition out of it |
| `Retries.FinalForever` | backend/app/services/payment_state_machine.py:104-121 | No run leaves one of the four final statuses or has a retry accepted there |
| `Retries.FinalIff` | backend/app/services/payment_state_machine.py:42-146 | The statuses that no run ever leaves are exactly those four, although eight are called terminal |
| `PaymentStates.EnteredFrom` | backend/app/services/payment_state_machine.py:42-122 | From which statuses each status can be entered, for all of them |
| `PaymentStates.TerminalIff` | backend/app/services/payment_state_machine.py:125-182 | Which statuses are called terminal and which can be retried |
| `Retries.PaymentRow.Transition` | backend/app/services/payment_state_machine.py:264-272 | Changes the status if the table allows it, and otherwise nothing, with a 400 |
| `Retries.PaymentRow.RetryPayment` | backend/app/services/adaptive_payment_service.py:306-357 | The in-place steps are the specified effect, half-done changes before a raise included |
| `Retries.PaymentRow.MarkPaymentFailed` | backend/app/services/adaptive_payment_service.py:395-408 | The reason is set, and the status moves to permanently failed only if it was not terminal |
| `Retries.PaymentRow.Serve` | backend/app/core/database.py:36-46 | A request inside commit-or-rollback is one step of the run, and the stored count stays within max(maxRetries, its value before) |
| `Allocation.OldestFirst` | backend/app/services/payment_allocation_service.py:40-74 | Each schedule receives what the debts before it leave over, up to its own |
| `Allocation.AllocatedExactly` | backend/app/services/payment_allocation_service.py:40-78 | A paid or waived schedule, or one with nothing open, is left exactly as it was; a pending or overdue one receives the smaller of what it has open and what the open balances of the pending and overdue ones before it leave, and is paid now if that settles it |
| `Allocation.LeftoverExactly` | backend/app/services/payment_allocation_service.py:52-81 | What is returned is what all open balances of pending and overdue schedules leave of the payment |
| `Allocation.LeftoverIsExcess` | backend/app/services/payment_allocation_service.py:52-81 | The returned rest is exactly what exceeds all debts |
| `Allocation.AllocationConserves` | backend/app/services/payment_allocation_service.py:52-81 | Amounts applied and rest add up to the payment |
| `Allocation.InstalmentsAddUp` | backend/app/services/payment_allocation_service.py:24-81 | Paying a and then b leaves schedules and total rest as paying a + b does |
| `Allocation.AllocatedAt` | backend/app/services/payment_allocation_service.py:52-78 | Each schedule is credited its own allocation, never more than its debt |
| `Allocation.ReverseUndoesIff` | backend/app/services/payment_allocation_service.py:141-153 | Reversing right after allocating restores every amount paid, and the whole schedules if and only if none that the payment settles, by the debts before it, was overdue or had a payment date |
| `Allocation.ReverseForgetsOverdue` | backend/app/services/payment_allocation_service.py:151-153 | An overdue schedule paid off and reversed comes back as pending |
| `Allocation.ReachedWhen` | backend/app/services/payment_allocation_service.py:52-78 | Which schedules a payment reaches and which it settles, in terms of the debts before it |
| `Allocation.ReverseTwiceIff` | backend/app/services/payment_allocation_service.py:141-153 | Of the bare function: a second call is harmless if and only if every schedule that the payment reaches had nothing paid before (the service never makes it: ReversedAtMostOnce) |
| `Allocation.ReverseTwiceTakesMore` | backend/app/services/payment_allocation_service.py:141-153 | With 40 paid before, a second call on a payment of 60 takes those 40 off as well |
| `Allocation.LeaseSchedules.CreditRow` | backend/app/services/payment_allocation_service.py:56-78 | One pass of the loop credits one schedule as AllocatedExactly says, skips one that is neither pending nor overdue, and leaves every other |
| `Allocation.LeaseSchedules.CreditRows` | backend/app/services/payment_allocation_service.py:52-78 | The loop, with its break, has dealt with a prefix and left the others alone |
| `Allocation.LeaseSchedules.AllocatePayment` | backend/app/services/payment_allocation_service.py:24-81 | Schedules, allocation rows and rest are the specified functions of the payment, and no cent is lost |
| `Allocation.LeaseSchedules.ReverseAllocations` | backend/app/services/payment_allocation_service.py:124-155 | Every schedule with an allocation is reversed in place and the others are untouched |
| `Allocation.LeaseSchedules.TakeOff` | backend/app/services/payment_allocation_service.py:149-153 | One schedule loses the amount, not below zero, and is pending again if it was paid; no other changes |
| `PaymentBooks.RunBalances` | backend/app/services/payment_service.py:598-999 | Over every run in which no refund by organisation takes another payment's money, the books stay sound, and what a schedule shows beyond the payments that stand changes only by what those refunds left on it or took too much |
| `PaymentBooks.RunBalancesExactly` | backend/app/services/payment_service.py:598-999 | Over every run without refunds by organisation, in any order of creations, recordings, confirmations, refunds, rejections, other moves and schedule changes, what a schedule shows beyond the payments that stand never changes, and no payment is applied beyond its amount |
| `PaymentBooks.RunShifts` | backend/app/services/payment_service.py:598-999 | Over every run whatever, sound or not: what a schedule shows beyond the payments that stand changes by what refunded payments had given it less what their refunds took off |
| `PaymentBooks.RunSoundIff` | backend/app/services/payment_service.py:598-999 | The books stay sound through a run (no schedule shows less than the payments that stand gave it) if and only if each refund by organisation finds on the schedule named no money of other payments, or enough beside it |
| `PaymentBooks.OnlyOrgRefundsShift` | backend/app/services/payment_service.py:598-999 | While the books are sound, no other request puts them out of balance |
| `PaymentBooks.StepShifts` | backend/app/services/payment_service.py:598-999 | One request, whatever the books: each schedule's balance moves by its shift, and a new schedule starts at zero |
| `PaymentBooks.StepSoundIff` | backend/app/services/payment_service.py:598-999 | One request keeps sound books sound if and only if it is no refund by organisation that takes another payment's money |
| `PaymentBooks.AllotBalances` | backend/app/services/payment_service.py:640-696 | Allocating and completing a payment adds to the schedules exactly what its allocation rows say, at most its amount |
| `PaymentBooks.RefundExact` | backend/app/services/payment_service.py:840-848 | On sound books a refund, whatever came between, takes off exactly what the payment had given: the cut at zero never bites |
| `PaymentBooks.RejectLeavesSchedules` | backend/app/services/payment_service.py:946-972 | A rejection never changes a schedule, since what can be rejected has no allocations |
| `PaymentBooks.ReversedAtMostOnce` | backend/app/services/payment_service.py:829-972 | Over every run, through either refund or a rejection, each payment is reversed at most once |
| `PaymentBooks.RefundShifts` | backend/app/services/payment_service.py:829-848 | By how much either refund puts each schedule out of balance, on any books |
| `PaymentBooks.OrgRefundBalancesIff` | backend/app/services/payment_service.py:1748-1776 | On sound books it keeps the balance if and only if the payment has no allocation off the schedule that the client named, and gave that one its whole amount or all that it shows |
| `PaymentBooks.OrgRefundSoundIff` | backend/app/services/payment_service.py:1748-1776 | It keeps the books sound if and only if the schedule named holds no money of other payments, or enough beside it |
| `PaymentBooks.AppliedBounds` | backend/app/services/payment_service.py:640-696 | On sound books a confirmed payment gave a schedule no more than its amount and no more than the schedule shows |
| `PaymentBooks.OrgRefundWithoutSchedule` | backend/app/services/payment_service.py:1768-1774 | Of a payment that names no schedule it changes the status and nothing else |
| `PaymentBooks.OrgRefundLeavesRentPaid` | backend/app/services/payment_service.py:1748-1776 | A recorded payment that pays a schedule off, refunded that way, leaves the schedule paid |
| `PaymentBooks.OrgRefundTakesRent` | backend/app/services/payment_service.py:1748-1776 | A confirmed deposit that names a schedule which another payment paid off, refunded that way, takes that payment's money off the schedule |
| `PaymentBooks.DoneIsFixed` | backend/app/services/payment_service.py:598-999 | No run changes the allocations or the amount of a confirmed payment |
| `PaymentBooks.OverpaymentRecomputed` | backend/app/services/payment_allocation_service.py:97-121 | Whatever comes after a confirmation, a refund computes as overpayment what the confirmation left over, but for a deposit the whole amount |
| `PaymentBooks.RunKeepsWaived` | backend/app/services/payment_allocation_service.py:40-48 | Over every run no payment adds to a waived schedule, and it stays as it is until changed by hand |
| `PaymentBooks.StepKeepsWaived` | backend/app/services/payment_allocation_service.py:40-48 | So for every request |
| `PaymentBooks.ConfirmAnswers` | backend/app/services/payment_service.py:618-696 | A confirmation goes through if and only if the payment is initiated, predicted, routed, pending, reconciled or allocated; it is then completed and, unless a deposit, spread over the schedules |
| `PaymentBooks.RefundAnswers` | backend/app/services/payment_service.py:832-841 | Either refund goes through if and only if the payment is completed or confirmed (and the schedule named exists) |
| `PaymentBooks.RejectAnswers` | backend/app/services/payment_service.py:946-972 | A rejection goes through if and only if the payment is in progress or blocked by the prediction |
| `PaymentBooks.FailedIsNotRejected` | backend/app/services/payment_state_machine.py:163-165 | A failed payment counts as one that can be rejected, and is refused with 400 |
| `PaymentBooks.NewPayments` | backend/app/services/payment_service.py:470-511 | What creating and recording add, and when creating adds nothing |
| `PaymentBooks.OtherAnswers` | backend/app/services/payment_state_machine.py:264-272 | When any other move or change of a schedule goes through, and all it changes |
| `PaymentBooks.RecordedOverpayment` | backend/app/services/payment_allocation_service.py:97-121 | The same of a recorded payment |
| `PaymentBooks.DepositOverpayment` | backend/app/services/payment_allocation_service.py:97-121 | A deposit of 60 that can be refunded with an overpayment of 60, though nothing was left over |
| `PaymentBooks.RunKeepsKeys` | backend/app/services/payment_service.py:470-476 | No run gives an idempotency key to two payments or forgets one |
| `PaymentBooks.RepeatedCreate` | backend/app/services/payment_service.py:470-476 | A creation with a key can be repeated at any later time and changes nothing; with an empty key the repetition is refused |
| `PaymentService.LeaseAccount.Transition` | backend/app/services/payment_state_machine.py:264-272 | One payment changes its status if the table allows it; otherwise 400 and no change |
| `PaymentService.LeaseAccount.AdvanceToCompleted` | backend/app/services/payment_state_machine.py:360-404 | From every status that can be confirmed, the steps through the table are all allowed and end in completed |
| `PaymentService.LeaseAccount.Allot` | backend/app/services/payment_service.py:640-660 | Schedules and allocation rows after the allocation are the specified ones; a deposit is not allocated |
| `PaymentService.LeaseAccount.CreatePayment` | backend/app/services/payment_service.py:470-511 | A known key returns the payment there is, with no change; otherwise a new initiated payment; 404 for an unknown schedule, 400 for a waived one, 500 for a repeated empty key |
| `PaymentService.LeaseAccount.RecordManualPayment` | backend/app/services/payment_service.py:743-777 | A completed payment without a named schedule, allocated at once |
| `PaymentService.LeaseAccount.ConfirmPayment` | backend/app/services/payment_service.py:618-696 | Refused with 404 or 400 as the status says; otherwise allocated and completed |
| `PaymentService.LeaseAccount.RefundPayment` | backend/app/services/payment_service.py:829-848 | Only of a successful payment: the status becomes refunded and its allocations are taken off |
| `PaymentService.LeaseAccount.RefundPaymentByOrg` | backend/app/services/payment_service.py:1748-1776 | Only of a successful payment: the status becomes refunded and the whole amount is taken off the named schedule, if any |
| `PaymentService.LeaseAccount.RejectPayment` | backend/app/services/payment_service.py:943-972 | Refused with 400 by the status class or by the table; otherwise rejected, with its allocations taken off |
| `PaymentService.LeaseAccount.ChangeSchedule` | backend/app/services/payment_service.py:1192-1195 | Late fee, status and date of a schedule change but never what was paid; a new schedule starts unpaid |
| `PaymentService.LeaseAccount.Serve` | backend/app/core/database.py:36-46 | A request inside commit-or-rollback is one step of the run; it keeps sound books sound if and only if it is no refund by organisation that takes another payment's money, and keeps the balance if it is no refund by organisation |
| `Organisations.RestoreUndoesArchiveIff` | backend/app/services/admin_service.py:127-203 | Restore after archive is the identity on the whole database if and only if the organisation was active and no profile of it had been deactivated within 5 s of the archiving |
| `Organisations.RestoreActivates` | backend/app/services/admin_service.py:143-185 | An inactive organisation is active after archiving and restoring it |
| `Organisations.RestoreRevivesBystander` | backend/app/services/admin_service.py:187-201 | A profile deactivated four seconds before the archiving is live after the restore |
| `Organisations.OpsTouchOnlyTheirProfiles` | backend/app/services/admin_service.py:81-122 | Profile operations change nothing but the deletion mark of the profiles they name |
| `Organisations.RestoreAfterOperations` | backend/app/services/admin_service.py:127-203 | With any profile operations in between: untouched profiles of the archiving are live again, those deactivated outside the 5 s stay so, other organisations' profiles are left alone |
| `Organisations.LateDeactivationSurvives` | backend/app/services/admin_service.py:187-203 | A profile last deactivated at least 5 s away from the archiving is still deactivated, since that moment, after the restore |
| `Organisations.MoveConserves` | backend/app/services/admin_service.py:233-243 | Moving live properties: none appears, disappears or is split, archived ones stay, one side loses what the other gains |
| `Organisations.TransferConserves` | backend/app/services/admin_service.py:215-243 | A transfer empties the source into the target if they differ, changes nothing if they are the same, and never touches a third organisation |
| `Organisations.NewGrantsUnique` | backend/app/services/admin_service.py:465-478 | Adding the missing grants keeps one per landlord and property and covers every property asked for |
| `Organisations.AssignGrants` | backend/app/services/admin_service.py:444-489 | After an assignment grants are unique, none is lost, and every property that moved is covered |
| `Organisations.AssignConserves` | backend/app/services/admin_service.py:444-489 | The agency gains exactly the chosen live properties of the personal organisation; the total and third parties are unchanged |
| `Organisations.LeftBehindIff` | backend/app/services/admin_service.py:447-489 | The archived personal organisation has no live property left if and only if no ids were given or they include them all |
| `Organisations.PropertyLeftBehind` | backend/app/services/admin_service.py:447-489 | With one of two ids given, the other property stays behind in the archived organisation |
| `Organisations.LandlordStaysLiveIff` | backend/app/services/admin_service.py:480-489 | The landlord ends up a read-only member of the agency, live if and only if live before and not already a member of it |
| `Organisations.AgencyArchivesItself` | backend/app/services/admin_service.py:480-489 | A landlord assigned to the agency they belong to is deactivated together with the agency |
| `OrganisationAnswers.DeactivateAnswers` | backend/app/services/admin_service.py:81-106 | Succeeds if and only if the profile is live and not one's own; 404, 400 or 409 otherwise |
| `OrganisationAnswers.RestoreProfileAnswers` | backend/app/services/admin_service.py:109-122 | Succeeds if and only if the profile is deactivated, and it is live afterwards |
| `OrganisationAnswers.RestoreUndoesDeactivation` | backend/app/services/admin_service.py:81-122 | Deactivating and restoring a profile gives everything back |
| `OrganisationAnswers.ArchiveAnswers` | backend/app/services/admin_service.py:127-166 | Succeeds if and only if the organisation is live; marks it and all its live profiles with one moment and no other row |
| `OrganisationAnswers.RestoreAnswers` | backend/app/services/admin_service.py:169-212 | Succeeds if and only if it is archived; revives exactly its profiles deactivated less than 5 s away |
| `OrganisationAnswers.TransferAnswers` | backend/app/services/admin_service.py:215-251 | Succeeds if and only if both are on record and the target is live; moves exactly the live properties of the source |
| `OrganisationAnswers.AssignAnswers` | backend/app/services/admin_service.py:435-442 | Succeeds if and only if landlord and agency are on record, the agency is live and so is the landlord's own organisation, if any |
| `OrganisationAnswers.AssignMoves` | backend/app/services/admin_service.py:446-478 | Exactly the picked properties move and exactly the missing read-only grants are added |
| `OrganisationAnswers.AssignMovesLandlord` | backend/app/services/admin_service.py:480-489 | The landlord becomes a read-only landlord of the agency, and what is archived with the personal organisation |
| `OrganisationService.StepConserves` | backend/app/services/admin_service.py:81-507 | Every admin request keeps the set of properties, the archived ones, and unique grants, and withdraws no grant |
| `OrganisationService.RunConserves` | backend/app/services/admin_service.py:81-507 | So does every run of them, whatever organisations they name |
| `OrganisationService.StepOwners` | backend/app/services/admin_service.py:215-489 | A property changes owner exactly if the request succeeds and is a transfer from its owner or an assignment that picks it, and then to that request's target |
| `OrganisationService.RunOwners` | backend/app/services/admin_service.py:215-489 | Over every run each property has an owner on record: the target of the last request that moved it from its owner at the time, or its first owner if none did |
| `OrganisationService.Admin.DeactivateProfile` | backend/app/services/admin_service.py:81-106 | Marks exactly that profile as deleted now; 404 if missing, 400 for oneself, 409 if already deactivated, and then nothing changes |
| `OrganisationService.Admin.RestoreProfile` | backend/app/services/admin_service.py:109-122 | Clears the mark of exactly that profile; 404 if missing, 409 if live, and then nothing changes |
| `OrganisationService.Admin.SetDeletedAt` | backend/app/services/admin_service.py:153-201 | The loop over selected profiles sets their mark and no other's |
| `OrganisationService.Admin.ArchiveOrganisation` | backend/app/services/admin_service.py:127-156 | Marks the organisation and all its live profiles, of any role, with the same moment and nothing else; 404 or 409 with no change |
| `OrganisationService.Admin.RestoreOrganisation` | backend/app/services/admin_service.py:169-203 | Makes the organisation live and active and revives exactly its profiles deactivated within 5 s of the archiving; 404 or 409 with no change |
| `OrganisationService.Admin.TransferProperties` | backend/app/services/admin_service.py:215-251 | The bulk update is the specified transfer, and the count returned is that of the source's live properties |
| `OrganisationService.Admin.MoveProperties` | backend/app/services/admin_service.py:461-463 | The loop moves the selected properties and no other |
| `OrganisationService.Admin.GrantAccess` | backend/app/services/admin_service.py:465-478 | The loop adds exactly the missing grants, each looked up before any is flushed |
| `OrganisationService.Admin.MoveLandlord` | backend/app/services/admin_service.py:444-485 | Properties, grants and profile after the flush are the specified ones |
| `OrganisationService.Admin.AssignLandlord` | backend/app/services/admin_service.py:414-507 | The whole assignment, including the archiving in the same call, is the specified one |
| `OrganisationService.Admin.Serve` | backend/app/core/database.py:36-46 | A request inside commit-or-rollback settles to its specification and conserves properties and grants |
| `Sessions.MarkerIsHistory` | backend/app/core/session_cache.py:31-49 | After any interleaving, a live marker exists if and only if some invalidation of the user has neither run out nor been followed by a clear |
| `Sessions.PhasesOnlyAdvance` | backend/app/api/deps.py:219-226 | A request that found a marker is never admitted, and one that was admitted stays so |
| `Sessions.AdmittedIff` | backend/app/api/deps.py:219-226 | A request is admitted if and only if no invalidation of its user is outstanding when it checks |
| `Sessions.AdmittedOnlyAfterRefusal` | backend/app/api/deps.py:219-226 | In every interleaving, a request that checks within the TTL of an invalidation is admitted only if another request of the user cleared the marker in between, and that one is refused |
| `Sessions.StaysQuiet` | backend/app/api/deps.py:219-226 | Until a request of the user checks, nobody of the user starts waiting to clear |
| `Sessions.NextCheckRefused` | backend/app/api/deps.py:219-226 | If nobody is between check and clear when the user is invalidated, the next check within the TTL is refused |
| `Sessions.LateClearSwallowsInvalidation` | backend/app/api/deps.py:219-226 | Without that condition an interleaving exists in which the next check is admitted |
| `Sessions.MarkerStore.InvalidateSession` | backend/app/core/session_cache.py:31-34 | The user's marker exists for exactly the next 24 hours; other users see no difference |
| `Sessions.MarkerStore.IsSessionStale` | backend/app/core/session_cache.py:37-40 | True exactly if the user's marker is in force now or later, and changes nothing |
| `Sessions.MarkerStore.ClearStaleMarker` | backend/app/core/session_cache.py:43-49 | The user's marker exists at no time any more; other users see no difference |
| `Sessions.MarkerStore.Guard` | backend/app/api/deps.py:219-226 | Run without interruption, a stale session is refused once, the next request passes, and other users see no difference |
| `Paging.LastPage` | backend/app/schemas/common.py:31-36 | total_pages is the least number of pages that hold all rows |
| `Paging.HasNextIff` | backend/app/services/contractor_service.py:84 | hasNext holds if and only if page < total_pages; of the service function alone, whose endpoint asks for a page size of at least 1: with 0 it holds whenever there are rows, though there are no pages |
| `Paging.PagesArePrefix` | backend/app/services/contractor_service.py:76 | The first n pages are the first n * page_size rows |
| `Paging.PagesTile` | backend/app/services/contractor_service.py:75-85 | Pages 1 to total_pages are the whole ordered list, none of them is empty and all later ones are |
| `Paging.FetchAllUsers` | backend/scripts/migrate_users_to_rbac.py:87-107 | Every user once in floor(N/100) + 1 requests if the server serves pages of 100; complete if and only if it does or N fits its page |
| `Aliases.WalkSplits` | backend/app/schemas/common.py:17-20 | The split, capitalise and join generator is a single pass over the characters |
| `Aliases.WalkUndone` | backend/app/schemas/common.py:17-20 | From any place in a name, the way back restores the rest of it if and only if the rest is in snake case there |
| `Aliases.AliasUndoneIff` | backend/app/schemas/common.py:17-20 | A name is recovered from its alias if and only if it has no upper-case letter and a lower-case letter after each underscore |
| `Aliases.AliasWordByWord` | backend/app/schemas/common.py:17-20 | A one-word name is its own alias; each further word is added without underscore, first letter in upper case, the others in lower case |
| `Aliases.AliasInjective` | backend/app/schemas/common.py:17-20 | Different names of that kind never share an alias |
| `Aliases.AliasClashes` | backend/app/schemas/common.py:17-20 | Outside that domain aliases do collide |
| `RoleMigration.MigrateAppend` | backend/scripts/migrate_users_to_rbac.py:150-166 | Assigning two sets of roles one after the other is assigning their union, and the insertions add up |
| `RoleMigration.WantedIff` | backend/scripts/migrate_users_to_rbac.py:205-237 | An assignment is called for if and only if a user of that id has a role whose lower-case name is the application's |
| `RoleMigration.MatchedIff` | backend/scripts/migrate_users_to_rbac.py:211-216 | So for one user's roles |
| `RoleMigration.UnknownUsers` | backend/scripts/migrate_users_to_rbac.py:218-229 | Exactly users without a known role are counted as such and get no row; any other gets one with the last e-mail |
| `RoleMigration.MigratedUnique` | backend/scripts/migrate_users_to_rbac.py:150-166 | No assignment is ever stored twice |
| `RoleMigration.SecondRunIsIdle` | backend/scripts/migrate_users_to_rbac.py:150-166 | Running again over the same users inserts nothing |
| `RoleMigration.Migration.AssignRole` | backend/scripts/migrate_users_to_rbac.py:150-166 | Inserts exactly if absent, and says so |
| `RoleMigration.Migration.AssignRoles` | backend/scripts/migrate_users_to_rbac.py:231-237 | A user's roles, repetitions included, are inserted once each and counted once each |
| `RoleMigration.Migration.MigrateUser` | backend/scripts/migrate_users_to_rbac.py:229-237 | The user row is upserted and the missing assignments are inserted |
| `RoleMigration.Migration.Run` | backend/scripts/migrate_users_to_rbac.py:171-251 | The table gains exactly the missing wanted rows, `assigned` counts them, the last e-mail of each user counts, and a dry run writes nothing |
| `References.PaddedDenotes` | backend/alembic/versions/020_human_readable_references.py:33-36 | The padded number has four characters always, and up to 9999 it still denotes the number |
| `References.TenThousandIsCut` | backend/alembic/versions/020_human_readable_references.py:33-36 | LPAD cuts 10000 down to 1000 |
| `References.NumbersDistinct` | backend/alembic/versions/020_human_readable_references.py:33-36 | No two rows of a partition share a row number |
| `References.NumberBound` | backend/alembic/versions/020_human_readable_references.py:33-36 | Row numbers run from 1 to the size of the partition |
| `References.NumbersFill` | backend/alembic/versions/020_human_readable_references.py:33-36 | Every number in that range is given to some row |
| `References.OlderRowsFirst` | backend/alembic/versions/020_human_readable_references.py:33-36 | An older row of a partition has the smaller number |
| `References.ReferencesByAge` | backend/alembic/versions/020_human_readable_references.py:28-86 | After the backfill of a partition of at most 9999 rows, the numbers read back from the references grow with the age of the rows |
| `References.FirstReference` | backend/alembic/versions/020_human_readable_references.py:28-86 | The literal reference of the only row of each of the five tables |
| `References.StemsArePartitions` | backend/alembic/versions/020_human_readable_references.py:28-86 | Two rows have the same stem if and only if they are in the same partition |
| `References.ReferenceParts` | backend/alembic/versions/020_human_readable_references.py:28-86 | Two references are equal if and only if stem and padded number are |
| `References.SmallPartitionsDistinct` | backend/alembic/versions/020_human_readable_references.py:28-86 | On any table, partitions with at most 9999 rows to fill give pairwise distinct references |
| `References.LargePartitionClashes` | backend/alembic/versions/020_human_readable_references.py:28-86 | A partition with 10000 rows to fill always has two of them with the same reference |
| `References.ReferencesDistinctIff` | backend/alembic/versions/020_human_readable_references.py:28-86 | On any table, the backfilled references are pairwise distinct if and only if no partition has more than 9999 rows to fill |
| `References.CalledForIsGiven` | backend/alembic/versions/020_human_readable_references.py:28-86 | The references given out are exactly stem plus each number from 1 to the size of a partition to fill |
| `References.IndexBuildsIff` | backend/alembic/versions/020_human_readable_references.py:28-93 | On any table, some of whose rows may have references already, the unique index can be built after the backfill if and only if the references that were there are distinct, no partition has more than 9999 rows to fill, and none of those that were there is one that a partition calls for |
| `References.EarlierReferenceClashes` | backend/alembic/versions/020_human_readable_references.py:56-93 | A table of two rows, one of which has TEN-0001 already, on which the index cannot be built |
| `References.Backfill` | backend/alembic/versions/020_human_readable_references.py:39-86 | The update gives each row without a reference its own, computed from the table before it, and leaves the others alone: the whole table afterwards |

## Left out

- AliasUndoneIff: letter case is that of ASCII, because field names are; Unicode case mappings are not modelled.
- SlugifyYieldsSlug: lower-casing works character by character on any alphabet with the stated properties, so a mapping that depends on context (final sigma) is not covered.
- NumberToWords: amounts are non-negative, as its documentation says; a negative one is not modelled.
- BillingMonths: years below 1, where `datetime` overflows, do exist in the model; dates are read in UTC.
- FeeWithinHalfCent: and every other result on amounts, fees and scores is in exact arithmetic; binary floating point is not modelled.
- ScoreMonotone: the history is given as failed and total counts; the query that counts them is not modelled.
- AllocatePayment: amounts are whole cents, so the rounding of the remainder does nothing; the schedules are given in the order of their due dates.
- Backfill: rows created at the same moment are numbered in table order, where PostgreSQL leaves the order open.
- SecondRunIsIdle: the identity provider is taken to return the same users with the same roles.
- PagesTile: is about the filtered list in a fixed order; the filters are not modelled, nor is the order of equal names.
- EstimatePaymentCost: Python's in-place sort is represented by its result, that of a stable sort.
- TransferProperties: the bulk UPDATE is one step, because the database runs it as one statement.
- RunKeepsGood: requests run one at a time; two concurrent requests for one email have no constraint behind them in the database.
- RetryPayment: a missing payment (404), the scoping of its query and the event publishing are not modelled.
- AdmittedIff: the store is reached without failures, and the branch that refuses machine tokens comes before it.
- The occupancy series, the dashboard totals and the status and plan distributions: sums and counts without the month buckets' conservation law.
- Identity-provider calls, e-mail, Redis and HTTP clients, templates, encryption and token signatures: they appear, if at all, as a place where a request can fail.
- Clocks, generated ids, tokens and passwords: parameters of the requests.
- Contact details of invites, profiles and organisations, the identity-provider ids and their unique columns: no decision depends on them.
- RunBalances: the schedules of a lease are only added to; deleting them with a terminated lease, wallet and ledger entries, deposit balances, and looking a payment up by organisation and lease are not modelled.
- CreatePayment: a key is looked up among the payments of the lease; that it may belong to a payment of another lease is not modelled, nor the push to a mobile-money provider.
- ChangeSchedule: stands for late fees, waivers and the overdue mark with any new values; the rules that compute them are not modelled.
- Prediction before routing (`predict_and_route`).
- Personal-organisation migration and repair of landlords, inspection and maintenance state tables, role guards, listings and pricing migrations: easy cases or query plumbing.
- The frontend.
