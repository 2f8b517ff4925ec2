# Interview dashboard: list filter and summary-card decisions

This project models the decision logic of a web dashboard for voice-interview call
records. Each record can carry extracted variables: a gender flag (`is_woman`), a
favourite food and a reason for it. Any of them may be absent. The model covers two
React components:

- **The interview list** (`interview-list.tsx`). A three-way selector
  (`all | woman | not-woman`) filters the records. The predicate compares the flag
  strictly, so a record without the flag is kept only by `all`. The model also covers
  the empty-state message and what each row shows: the participant label with its
  `'Unknown'` fallback, the gender badge, the favourite food with its optional reason
  line, and the duration rounded to whole seconds.
- **The summary card** (`interview-summary-card.tsx`). It shows the participant (with
  the fallback `'N/A'`) and the already formatted date, time and duration. It also has
  an extracted-variables section, which opens only when the flag is defined or the food
  is non-empty. Inside it, the badge, the food and the reason each have their own guard.

Both components are pure, so the model uses only datatypes, functions and lemmas.
`Interviews` (interviews.dfy) holds the record, the JavaScript truthiness of
`string | null`, and the badge both views draw. `InterviewList` (interview_list.dfy)
holds the filter and the list rendering. `SummaryCard` (summary_card.dfy) holds the
card. `ListAndDetail` (list_and_detail.dfy) shows how the detail page feeds the card
from a record, and compares the two views of one record.

The record type is defined outside the modelled files. It is rebuilt here from how the
components use it: `id`, `callId`, `participantId: string | null`, `createdAt`,
`duration` in milliseconds, and optional `extractedVariables`. In that object, each of
`is_woman`, `favorite_food` and `food_reason` is optional.

The filter has an independent definition, `IsSelection`: an ascending choice of
positions that picks exactly the records the selector keeps. `FilterIsSelection` and
`FilterIsUniqueSelection` prove that the filter result is that selection and the only
one. Order preservation, the subsequence property and exact membership therefore follow
from a single statement.

## Model

| member | source | states |
|---|---|---|
| `Interviews.OrElse` | src/components/dashboard/interview-list.tsx:76 | JavaScript `or` on a nullable string: the string when it is non-empty, else the fallback; never blank when the fallback is not |
| `Interviews.GenderBadgeFor` | src/components/dashboard/interview-list.tsx:86-90 | the badge reads "Woman" exactly when the flag is true and "Not woman" exactly when it is false; the `default` variant exactly when true |
| `Interviews.BadgeFor` | src/components/dashboard/interview-list.tsx:84-91 | a badge exists exactly when the flag is defined, and its text says which value the flag has |
| `InterviewList.FilterInterviews` | src/components/dashboard/interview-list.tsx:36-42 | the result is no longer than the input, and the selector keeps every record in it |
| `InterviewList.FilterMembership` | src/components/dashboard/interview-list.tsx:36-42 | a record is in the result exactly when it is in the input and the selector keeps it |
| `InterviewList.FilterAllIsIdentity` | src/components/dashboard/interview-list.tsx:36-37 | with `all`, the result is the input: the same records in the same order |
| `InterviewList.FilterWomanMembership` | src/components/dashboard/interview-list.tsx:38-39 | with `woman`, a record is kept exactly when its variables are present and `is_woman` is exactly `true` |
| `InterviewList.FilterNotWomanMembership` | src/components/dashboard/interview-list.tsx:38-40 | with `not-woman`, a record is kept exactly when its variables are present and `is_woman` is exactly `false` |
| `InterviewList.AbsentFlagOnlyInAll` | src/components/dashboard/interview-list.tsx:36-42 | a record without the flag, or without variables, is kept by `all` and by neither gender selector |
| `InterviewList.FilterIsSelection` | src/components/dashboard/interview-list.tsx:36-42 | the result is picked from the input at ascending positions, one record per position, and these are exactly the positions of kept records |
| `InterviewList.FilterIsUniqueSelection` | src/components/dashboard/interview-list.tsx:36-42 | any sequence picked at ascending positions that are exactly the kept positions equals the filter result |
| `InterviewList.FilterIsSubsequence` | src/components/dashboard/interview-list.tsx:36-42 | the result is a subsequence of the input: relative order is kept and every element comes from the input |
| `InterviewList.FilterIdempotent` | src/components/dashboard/interview-list.tsx:36-42 | filtering the result again with the same selector changes nothing |
| `InterviewList.WomanAndNotWomanDisjoint` | src/components/dashboard/interview-list.tsx:38-40 | no record is kept by both `woman` and `not-woman` |
| `InterviewList.WomanPlusNotWomanCountsFlagged` | src/components/dashboard/interview-list.tsx:38-40 | the sizes of the `woman` and `not-woman` results add up to the number of records whose flag is defined |
| `InterviewList.RoundedSeconds` | src/components/dashboard/interview-list.tsx:119-121 | the shown seconds `s` satisfy `1000*s - 500 <= duration < 1000*s + 500`: the nearest whole second, with halves rounding up |
| `InterviewList.RoundedSecondsIsMathRound` | src/components/dashboard/interview-list.tsx:119-121 | the rounding equals `Math.round(duration/1000)`, taken as `floor(x + 1/2)` over exact reals, for every integer duration |
| `InterviewList.RoundedSecondsExamples` | src/components/dashboard/interview-list.tsx:121 | 0 ms gives 0 s, 499 gives 0, 500 gives 1, 1499 gives 1, 1500 gives 2 and 65000 gives 65 |
| `InterviewList.RoundedSecondsMonotonic` | src/components/dashboard/interview-list.tsx:119-121 | a longer duration never shows fewer seconds |
| `InterviewList.RenderRow` | src/components/dashboard/interview-list.tsx:59-122 | participant label: the id if non-empty, else "Unknown". Badge: exactly when the flag is defined; "Woman" with the `default` variant exactly when it is true, "Not woman" exactly when it is false. Food block: exactly when the food is non-empty, showing that food. Reason line: exactly when the reason is also non-empty, showing that reason. Seconds: rounded duration. |
| `InterviewList.RowReasonNeedsFood` | src/components/dashboard/interview-list.tsx:95-110 | a row shows a reason line exactly when both `favorite_food` and `food_reason` are non-empty |
| `InterviewList.RenderList` | src/components/dashboard/interview-list.tsx:51-58 | the empty state shows exactly when the filtered list is empty. Its message is "No interviews yet." exactly under `all`, otherwise "No interviews match this filter.". Otherwise there is one row per filtered record, in order. |
| `InterviewList.NoInterviewsYetExactly` | src/components/dashboard/interview-list.tsx:51-53 | "No interviews yet." shows exactly when the selector is `all` and there are no records at all |
| `InterviewList.NoMatchesExactly` | src/components/dashboard/interview-list.tsx:51-53 | under a gender selector, "No interviews match this filter." shows exactly when no record is kept |
| `InterviewList.FilteredRowsShowMatchingBadge` | src/components/dashboard/interview-list.tsx:36-42 | under `woman` every row shows the "Woman" badge; under `not-woman` every row shows "Not woman" |
| `SummaryCard.RenderSummaryCard` | src/components/interview/interview-summary-card.tsx:25-90 | participant: the id if non-empty, else "N/A". The section shows exactly when the flag is defined or the food is non-empty. Inside it, the badge shows exactly when the flag is defined: "Woman" with the `default` variant exactly when true, "Not woman" exactly when false. The food shows exactly when it is non-empty, and the reason exactly when it is non-empty; each shows the record's own text. Date, time, duration and call id are passed through unchanged. |
| `SummaryCard.NoVariablesNoSection` | src/components/interview/interview-summary-card.tsx:65 | with null extracted variables the card shows no section |
| `SummaryCard.GenderShownIffDefined` | src/components/interview/interview-summary-card.tsx:69-75 | the gender badge shows exactly when `is_woman` is defined |
| `SummaryCard.FoodShownIffNonEmpty` | src/components/interview/interview-summary-card.tsx:78-83 | the favourite food shows exactly when it is a non-empty string |
| `SummaryCard.ReasonShownIff` | src/components/interview/interview-summary-card.tsx:65-90 | the reason shows exactly when it is non-empty AND the section is open |
| `SummaryCard.ReasonAloneShowsNothing` | src/components/interview/interview-summary-card.tsx:65 | variables that hold only a reason display no section at all |
| `SummaryCard.PizzaScenario` | src/components/interview/interview-summary-card.tsx:65-90 | `{is_woman: true, favorite_food: "pizza"}` shows the "Woman" badge and "pizza", and no reason |
| `SummaryCard.FormattedFieldsNotInterpreted` | src/components/interview/interview-summary-card.tsx:8-52 | props that differ only in duration, date and time give cards that differ only in those three strings |
| `ListAndDetail.SameBadgeInBothViews` | src/components/interview/interview-summary-card.tsx:65-75 | the list row and the card show the same gender badge, under the same condition |
| `ListAndDetail.SameFoodInBothViews` | src/components/interview/interview-summary-card.tsx:78-83 | the list row and the card show the same favourite food, under the same condition |
| `ListAndDetail.ParticipantInBothViews` | src/components/interview/interview-summary-card.tsx:37 | a non-empty participant id is shown in both views; otherwise the list shows "Unknown" and the card shows "N/A" |
| `ListAndDetail.ListReasonImpliesCardReason` | src/components/interview/interview-summary-card.tsx:85-90 | whenever a list row shows a reason line, the card shows the reason too |
| `ListAndDetail.CardReasonWithoutListReason` | src/components/interview/interview-summary-card.tsx:65-90 | the converse fails. With the flag defined, no food and a reason, the card shows the reason but the row shows no food block and so no reason. |

## Left out

- `formatDate` in interview-list.tsx (lines 24-31) delegates to `Intl.DateTimeFormat`, which depends on locale and time zone. The row does not model its date, and `createdAt` is carried but never interpreted.
- The detail page's duration, date and time formatters are not part of this model. The card receives their output as opaque strings.
- InterviewList.RoundedSeconds: computed with exact integer arithmetic. It does not model IEEE double rounding of `duration / 1000`, which matches only for durations below 2^53 ms.
- The `is_woman` flag is modelled as a defined boolean or `undefined`. A JSON `null` flag is not modelled: it would pass `!== undefined` yet match neither `=== true` nor `=== false`.
- The selector's React state (`useState`) is an argument of the filter. The button bar that changes it is not modelled.
- The unreachable `return true` after the three selector cases cannot be expressed: the selector is a closed datatype.
- Tooltip titles (`Participant: …`, `Are you a woman? Yes/No`, `Favorite food: …`, `Why: …`, `Duration: … seconds`) are not modelled. They only repeat the values already modelled.
- Markup, CSS classes, the `Link` target built from the call id, the list key (`id`), and the card, badge and scroll-area components are not modelled.
- The copy button (copy-button.tsx) is not part of this model. It calls the clipboard and resets a flag after a 2-second timer, and both are outside this pure model.
- Fetching the record by call id and the not-found route in page.tsx are not modelled. The record store is external.
