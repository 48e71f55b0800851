/**
 * The routing guard after each validation step: go round again for the next attribute, or
 * leave the loop for refinement.
 */
module Edges {
  import opened Wrappers
  import opened AgentState

  /** The two labels the guard returns. */
  datatype Route = Continue | Complete

  /** `max_iterations` in the settings. */
  const MaxIterations: int := 20

  /** `should_process_more_attributes`: complete once no attribute is current (an empty name
      still counts as one) or once the iteration count reaches the cap; otherwise continue.
      It only reads the state. */
  function ShouldProcessMoreAttributes(s: StateValue): (r: Route)
    ensures r == Continue <==> s.currentAttribute.Some? && s.iterationCount < MaxIterations
  {
    if s.currentAttribute.None? then Complete
    else if s.iterationCount >= MaxIterations then Complete
    else Continue
  }
}
