/** The records exchanged with the task service and the completion service. */
module Tasks {
  import opened Wrappers

  /** A task snapshot as one delta fetch returns it. `content`, `tags` and `dueDate` may be
      absent from the JSON object; the remaining fields of that object are carried along
      unchanged by every spread in the source and are not written out here. */
  datatype Task = Task(
    id: string,
    title: string,
    content: Option<string>,
    tags: Option<seq<string>>,
    projectId: string,
    dueDate: Option<string>)

  /** One element of the `tasks` array the decomposition call returns; either field may be
      missing from the parsed JSON. */
  datatype Descriptor = Descriptor(title: Option<string>, description: Option<string>)

  /** One element of the `add` payload that creates a subtask. */
  datatype NewTask = NewTask(
    title: Option<string>,
    startDate: string,
    modifiedDate: string,
    dueDate: string,
    projectId: string,
    parentId: string,
    content: string)

  /** One element of the payload that sets a subtask's parent. */
  datatype Link = Link(taskId: string, parentId: string, projectId: string)

  /** A chat message sent to the completion service; every message here has role `user`. */
  datatype Message = Message(role: string, content: string)

  /** A write issued to the task service: `{update: tasks}` or `{add: records}` on
      `/batch/task`, or a link list on `/batch/taskParent`. */
  datatype Write =
    | UpdateTasks(tasks: seq<Task>)
    | AddTasks(records: seq<NewTask>)
    | SetParents(links: seq<Link>)

  /** What the decomposition call produced: no function call in
      the first choice, parsed function arguments (whose `tasks` array may be missing), or an
      exception thrown by the call or by `JSON.parse`. */
  datatype DecomposeReply =
    | NoFunctionCall
    | Arguments(tasks: Option<seq<Descriptor>>)
    | Threw

  /** The collaborators, as oracles. A call is identified by its position among the calls of
      its kind in one cycle and by the request it carries; a reply of None is a rejected
      promise. `expandCount` stands for `getExpandedNumberFromTags` (whose file is not part of
      this model) and `clock` for `new Date().toISOString()` at the i-th subtask creation. */
  datatype Services = Services(
    complete: (nat, string) -> Option<string>,
    decompose: (nat, seq<Message>) -> DecomposeReply,
    acceptUpdate: seq<Task> -> bool,
    addTasks: seq<NewTask> -> Option<seq<string>>,
    acceptParents: seq<Link> -> bool,
    expandCount: seq<string> -> Option<nat>,
    clock: nat -> string)

  /** The writes one piece of processing issued, in order, and whether its promise resolved
      (false: it rejected, and the rejection reached the sync loop). */
  datatype Outcome = Outcome(writes: seq<Write>, ok: bool)
}
