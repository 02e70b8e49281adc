/** The values runtimed and sandboxd exchange about one coding task
    (control-plane/internal/runtime/tasks.go). */
module Protocol {

  datatype TaskStatus = TaskRunning | TaskSucceeded | TaskFailed | TaskCancelled

  datatype TaskResult = TaskResult(
    id: string,
    status: TaskStatus,
    failureReason: string,
    errorMessage: string,
    filesChanged: seq<string>,
    agentMessage: string,
    buildOk: bool,
    buildError: string,
    previewError: string,
    checkpoint: string)

  /** An event's type and its data in one value: `Done` is the terminal event. */
  datatype Body =
    | Status(phase: string)
    | Message(role: string, text: string)
    | Tool(name: string, state: string, path: string)
    | Build(ok: bool, msg: string)
    | Done(result: TaskResult)

  datatype Event = Event(id: nat, body: Body)
}
