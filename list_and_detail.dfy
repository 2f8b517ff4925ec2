/**
 * The same record seen in the dashboard list and on its detail page: how
 * the detail page feeds the summary card, and where the two views agree and
 * where they differ.
 */
module ListAndDetail {
  import opened Interviews
  import opened InterviewList
  import opened SummaryCard

  /**
   * The card's props as the detail page fills them
   * (src/app/interview/[callId]/page.tsx:45-52): the record's participant id,
   * call id and variables unchanged, and the already formatted duration,
   * date and time.
   */
  function CardPropsOf(interview: Interview, duration: string, date: string, time: string): SummaryCardProps {
    SummaryCardProps(interview.participantId, duration, date, time, interview.callId, interview.extractedVariables)
  }

  /** Both views show the same gender badge, under the same condition. */
  lemma SameBadgeInBothViews(interview: Interview, duration: string, date: string, time: string)
    ensures var card := RenderSummaryCard(CardPropsOf(interview, duration, date, time));
      RenderRow(interview).badge == (if card.variables.Some? then card.variables.value.gender else None)
  {
  }

  /** Both views show the same favourite food, under the same condition. */
  lemma SameFoodInBothViews(interview: Interview, duration: string, date: string, time: string)
    ensures var card := RenderSummaryCard(CardPropsOf(interview, duration, date, time));
      && (RenderRow(interview).food.Some? <==> ShowsFood(card))
      && (RenderRow(interview).food.Some? ==> RenderRow(interview).food.value.food == card.variables.value.favoriteFood.value)
  {
  }

  /** With a non-empty participant id both views show it; otherwise each shows its own placeholder. */
  lemma ParticipantInBothViews(interview: Interview, duration: string, date: string, time: string)
    ensures var card := RenderSummaryCard(CardPropsOf(interview, duration, date, time));
      && (Truthy(interview.participantId) ==> RenderRow(interview).participant == card.participant)
      && (!Truthy(interview.participantId) ==>
            RenderRow(interview).participant == UnknownParticipant && card.participant == NotAvailable)
  {
  }

  /** A reason line in the list implies the reason on the card. */
  lemma ListReasonImpliesCardReason(interview: Interview, duration: string, date: string, time: string)
    requires RenderRow(interview).food.Some? && RenderRow(interview).food.value.reason.Some?
    ensures ShowsReason(RenderSummaryCard(CardPropsOf(interview, duration, date, time)))
  {
  }

  /**
   * The converse fails: with the flag defined, no food and a reason, the
   * card shows the reason (its section is open for the badge) while the
   * list row has no food block and so no reason line.
   */
  lemma CardReasonWithoutListReason(interview: Interview, duration: string, date: string, time: string, reason: string)
    requires reason != ""
    requires interview.extractedVariables == Some(ExtractedVariables(Some(false), None, Some(reason)))
    ensures ShowsReason(RenderSummaryCard(CardPropsOf(interview, duration, date, time)))
    ensures RenderRow(interview).food == None
  {
  }
}
