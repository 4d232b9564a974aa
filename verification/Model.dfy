/** The entities of package `model` that the other modules share. */
module Model {

  datatype Status = NotRun | Running | Fail | Success | Stop

  datatype Step = Step(name: string, uses: string, runsOn: string, status: Status)

  datatype Stage = Stage(steps: seq<Step>, needs: seq<string>)

  datatype StageDetail = StageDetail(name: string, stage: Stage, status: Status)

  datatype StatusMessage = StatusMessage(jobName: string, jobId: int, status: Status)

  function NewStageDetail(name: string, stage: Stage): StageDetail {
    StageDetail(name, stage, NotRun)
  }
}
