/**
 * The interview record shared by the dashboard list and the detail card,
 * the JavaScript truthiness rules both components rely on, and the gender
 * badge that both of them draw.
 */
module Interviews {

  datatype Option<T> = None | Some(value: T)

  /**
   * Variables inferred from an interview. Each field is present or absent
   * on its own; absence (`undefined`) is kept apart from `false` and `""`.
   */
  datatype ExtractedVariables = ExtractedVariables(
    isWoman: Option<bool>,
    favoriteFood: Option<string>,
    foodReason: Option<string>)

  /**
   * One call record. `createdAt` is an opaque timestamp that the modelled
   * logic never interprets; `duration` is in milliseconds.
   */
  datatype Interview = Interview(
    id: string,
    callId: string,
    participantId: Option<string>,
    createdAt: int,
    duration: int,
    extractedVariables: Option<ExtractedVariables>)

  /** `vars?.is_woman`: absent when the variables object itself is absent. */
  function IsWomanOf(vars: Option<ExtractedVariables>): Option<bool> {
    if vars.Some? then vars.value.isWoman else None
  }

  /** `vars?.favorite_food` */
  function FavoriteFoodOf(vars: Option<ExtractedVariables>): Option<string> {
    if vars.Some? then vars.value.favoriteFood else None
  }

  /** `vars?.food_reason` */
  function FoodReasonOf(vars: Option<ExtractedVariables>): Option<string> {
    if vars.Some? then vars.value.foodReason else None
  }

  /** JavaScript truthiness of a `string | null | undefined`: only a non-empty string is truthy. */
  predicate Truthy(s: Option<string>) {
    s.Some? && s.value != ""
  }

  /**
   * `s || fallback` on a `string | null`: the string itself when it is
   * truthy, the fallback otherwise. With a non-empty fallback the result is
   * never blank.
   */
  function OrElse(s: Option<string>, fallback: string): (r: string)
    ensures r == fallback || (Truthy(s) && r == s.value)
    ensures Truthy(s) ==> r == s.value
    ensures fallback != "" ==> r != ""
  {
    if Truthy(s) then s.value else fallback
  }

  datatype BadgeVariant = Default | Secondary

  /** The gender badge: its text and its visual variant. */
  datatype GenderBadge = GenderBadge(text: string, variant: BadgeVariant)

  const WomanLabel := "Woman"
  const NotWomanLabel := "Not woman"

  /**
   * `isWoman ? 'Woman' : 'Not woman'` with variant `default`/`secondary`.
   * The label and the variant each determine the flag.
   */
  function GenderBadgeFor(isWoman: bool): (b: GenderBadge)
    ensures b.text == WomanLabel <==> isWoman
    ensures b.text == NotWomanLabel <==> !isWoman
    ensures b.variant == Default <==> isWoman
  {
    if isWoman then GenderBadge(WomanLabel, Default) else GenderBadge(NotWomanLabel, Secondary)
  }

  /** `isWoman !== undefined && <Badge …>`: a badge exactly when the flag is defined. */
  function BadgeFor(isWoman: Option<bool>): (b: Option<GenderBadge>)
    ensures b.Some? <==> isWoman.Some?
    ensures b.Some? ==> (b.value.text == WomanLabel <==> isWoman == Some(true))
    ensures b.Some? ==> (b.value.text == NotWomanLabel <==> isWoman == Some(false))
  {
    if isWoman.Some? then Some(GenderBadgeFor(isWoman.value)) else None
  }
}
