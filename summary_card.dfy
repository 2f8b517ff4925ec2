/**
 * The detail page's summary card: participant, preformatted date, time and
 * duration, the call id, and the extracted-variables section with its
 * gender badge, favourite food and reason.
 */
module SummaryCard {
  import opened Interviews

  const NotAvailable := "N/A"

  /**
   * The card's inputs. `duration`, `date` and `time` arrive already
   * formatted; the card only places them.
   */
  datatype SummaryCardProps = SummaryCardProps(
    participantId: Option<string>,
    duration: string,
    date: string,
    time: string,
    callId: string,
    extractedVariables: Option<ExtractedVariables>)

  /** The section under the divider; each item is present or absent on its own. */
  datatype VariablesSection = VariablesSection(
    gender: Option<GenderBadge>,
    favoriteFood: Option<string>,
    foodReason: Option<string>)

  /** What the card shows. */
  datatype Card = Card(
    participant: string,
    date: string,
    time: string,
    duration: string,
    callId: string,
    variables: Option<VariablesSection>)

  /** `isWoman !== undefined || favoriteFood`: the guard of the whole section. */
  predicate ShowsVariables(vars: Option<ExtractedVariables>) {
    IsWomanOf(vars).Some? || Truthy(FavoriteFoodOf(vars))
  }

  function RenderSummaryCard(props: SummaryCardProps): (card: Card)
    ensures card.participant != ""
    ensures Truthy(props.participantId) ==> card.participant == props.participantId.value
    ensures !Truthy(props.participantId) ==> card.participant == NotAvailable
    ensures card.variables.Some? <==>
      IsWomanOf(props.extractedVariables).Some? || Truthy(FavoriteFoodOf(props.extractedVariables))
    ensures card.variables.Some? ==>
      && (card.variables.value.gender.Some? <==> IsWomanOf(props.extractedVariables).Some?)
      && (card.variables.value.gender.Some? ==>
            (card.variables.value.gender.value.text == WomanLabel <==> IsWomanOf(props.extractedVariables) == Some(true)))
      && (card.variables.value.gender.Some? ==>
            (card.variables.value.gender.value.text == NotWomanLabel <==> IsWomanOf(props.extractedVariables) == Some(false)))
      && (card.variables.value.gender.Some? ==>
            (card.variables.value.gender.value.variant == Default <==> IsWomanOf(props.extractedVariables) == Some(true)))
      && (card.variables.value.favoriteFood.Some? <==> Truthy(FavoriteFoodOf(props.extractedVariables)))
      && (card.variables.value.favoriteFood.Some? ==>
            card.variables.value.favoriteFood.value == FavoriteFoodOf(props.extractedVariables).value)
      && (card.variables.value.foodReason.Some? <==> Truthy(FoodReasonOf(props.extractedVariables)))
      && (card.variables.value.foodReason.Some? ==>
            card.variables.value.foodReason.value == FoodReasonOf(props.extractedVariables).value)
    ensures card.date == props.date && card.time == props.time
    ensures card.duration == props.duration && card.callId == props.callId
  {
    var vars := props.extractedVariables;
    var favoriteFood := FavoriteFoodOf(vars);
    var foodReason := FoodReasonOf(vars);
    Card(
      OrElse(props.participantId, NotAvailable),
      props.date,
      props.time,
      props.duration,
      props.callId,
      if ShowsVariables(vars)
      then Some(VariablesSection(
        BadgeFor(IsWomanOf(vars)),
        if Truthy(favoriteFood) then Some(favoriteFood.value) else None,
        if Truthy(foodReason) then Some(foodReason.value) else None))
      else None)
  }

  /** Whether the card shows the given item at all. */
  predicate ShowsGender(card: Card) { card.variables.Some? && card.variables.value.gender.Some? }
  predicate ShowsFood(card: Card) { card.variables.Some? && card.variables.value.favoriteFood.Some? }
  predicate ShowsReason(card: Card) { card.variables.Some? && card.variables.value.foodReason.Some? }

  /** With no extracted variables the card shows no section at all. */
  lemma NoVariablesNoSection(props: SummaryCardProps)
    requires props.extractedVariables == None
    ensures RenderSummaryCard(props).variables == None
  {
  }

  /** The badge shows exactly when the flag is defined, whatever the food. */
  lemma GenderShownIffDefined(props: SummaryCardProps)
    ensures ShowsGender(RenderSummaryCard(props)) <==> IsWomanOf(props.extractedVariables).Some?
  {
  }

  /** The food shows exactly when it is a non-empty string. */
  lemma FoodShownIffNonEmpty(props: SummaryCardProps)
    ensures ShowsFood(RenderSummaryCard(props)) <==> Truthy(FavoriteFoodOf(props.extractedVariables))
  {
  }

  /** The reason needs its own non-empty text AND an open section. */
  lemma ReasonShownIff(props: SummaryCardProps)
    ensures ShowsReason(RenderSummaryCard(props)) <==>
      Truthy(FoodReasonOf(props.extractedVariables)) && ShowsVariables(props.extractedVariables)
  {
  }

  /** A reason alone does not open the section: the card shows nothing of it. */
  lemma ReasonAloneShowsNothing(props: SummaryCardProps, reason: string)
    requires props.extractedVariables == Some(ExtractedVariables(None, None, Some(reason)))
    ensures RenderSummaryCard(props).variables == None
  {
  }

  /** `{is_woman: true, favorite_food: "pizza"}`: badge "Woman" and the food, no reason. */
  lemma PizzaScenario(props: SummaryCardProps)
    requires props.extractedVariables == Some(ExtractedVariables(Some(true), Some("pizza"), None))
    ensures RenderSummaryCard(props).variables ==
      Some(VariablesSection(Some(GenderBadge(WomanLabel, Default)), Some("pizza"), None))
  {
  }

  /**
   * The formatted strings are placed, never read: props that differ only in
   * `duration`, `date` and `time` give cards that differ only there.
   */
  lemma FormattedFieldsNotInterpreted(p: SummaryCardProps, q: SummaryCardProps)
    requires p.participantId == q.participantId && p.callId == q.callId
    requires p.extractedVariables == q.extractedVariables
    ensures RenderSummaryCard(p).participant == RenderSummaryCard(q).participant
    ensures RenderSummaryCard(p).variables == RenderSummaryCard(q).variables
    ensures RenderSummaryCard(p) ==
      RenderSummaryCard(q).(duration := p.duration, date := p.date, time := p.time)
  {
  }
}
