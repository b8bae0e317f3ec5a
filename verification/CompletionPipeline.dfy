/** `manufacture_and_admit_completion` (`src/gymact/dfcm_finish.py`), which the completion laws show never to refuse its own cut. */
module CompletionPipeline {
  import opened Outcomes
  import opened Completion
  import opened CompletionKernel
  import opened CompletionLaws

  /** For valid items the pipeline returns its frontier and its cut; otherwise it fails as the frontier does. */
  method ManufactureAndAdmit(subject: string, items: seq<Item>, maxPlans: int)
    returns (r: Result<(Frontier, Cut), CompletionError>)
    ensures !Blank(subject) && maxPlans >= 1 && ValidItems(items) ==>
              var frontier := FrontierOf(subject, items, maxPlans);
              r == Success((frontier, SelectCut(frontier)))
    ensures Blank(subject) ==> r == Failure(EmptySubject)
    ensures !Blank(subject) && maxPlans < 1 ==> r == Failure(MaxPlansTooSmall)
    ensures !Blank(subject) && maxPlans >= 1 && !ValidItems(items) ==>
              FirstProblem(items).Some? && r == Failure(InvalidItems(FirstProblem(items).value))
  {
    hide FrontierOf;
    hide Admission;
    hide ValidItems;
    hide FirstProblem;
    var frontier := ManufactureFrontier(subject, items, maxPlans);
    if frontier.Failure? {
      return Failure(frontier.error);
    }
    var cut := SelectCut(frontier.value);
    if cut.selected.Some? || cut.standing.Alive? {
      var admitted := AdmitCut(cut, items);
      assert admitted == Success(cut) by {
        OwnCutIsAdmitted(subject, items, maxPlans);
      }
    }
    return Success((frontier.value, cut));
  }
}
