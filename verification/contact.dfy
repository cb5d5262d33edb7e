/** Classification of a physics contact between two named nodes. */
module Contact {

  /** Name of the scoring region placed in every obstacle's gap. */
  const GoalName: string := "goal"

  /** What a contact does to the game: score a point, end the game, or nothing. */
  datatype Outcome = Score | Lethal | Ignore

  predicate IsGoal(nameA: string, nameB: string)
  {
    nameA == GoalName || nameB == GoalName
  }

  /** A goal on either side scores whatever the state; any other contact is
      lethal while the game is running and ignored once it is over. */
  function Classify(running: bool, nameA: string, nameB: string): (o: Outcome)
    ensures o == Score <==> IsGoal(nameA, nameB)
    ensures o == Lethal <==> running && nameA != GoalName && nameB != GoalName
    ensures o == Ignore <==> !running && nameA != GoalName && nameB != GoalName
  {
    if IsGoal(nameA, nameB) then Score
    else if !running then Ignore
    else Lethal
  }

  /** The engine may report the two bodies in either order; the outcome does not depend on it. */
  lemma ClassifySymmetric(running: bool, nameA: string, nameB: string)
    ensures Classify(running, nameA, nameB) == Classify(running, nameB, nameA)
  {
  }
}
