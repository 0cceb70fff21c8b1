/** The two collaborators of the auto-reply feature: the job queue that
    schedule_auto_reply puts the reply task on, and the reply generator the
    task asks for the answer. The queue's worker and the generator's network
    call are not modelled: the queue is the list of enqueued tasks, and the
    generator's answer is a parameter. */
module AutoReply {
  import opened Records

  const SecondsPerMinute := 60

  /** An enqueued reply_automatically task: its one argument and its countdown in seconds. */
  datatype Task = Task(commentId: int, countdown: int)

  class Scheduler {
    var tasks: seq<Task>

    constructor ()
      ensures tasks == []
    {
      tasks := [];
    }
  }

  /** schedule_auto_reply: enqueues one task for the comment, due after the
      post's reply_after minutes. A post without reply_after makes the
      multiplication raise, and nothing is enqueued (`ok` is false). */
  method ScheduleAutoReply(scheduler: Scheduler, post: Post, comment: Comment) returns (ok: bool)
    modifies scheduler
    ensures ok <==> post.replyAfter.Some?
    ensures ok ==> scheduler.tasks == old(scheduler.tasks) + [Task(comment.id, post.replyAfter.value * SecondsPerMinute)]
    ensures !ok ==> scheduler.tasks == old(scheduler.tasks)
  {
    if post.replyAfter.None? {
      return false;
    }
    var countdown := post.replyAfter.value * SecondsPerMinute;
    scheduler.tasks := scheduler.tasks + [Task(comment.id, countdown)];
    return true;
  }

  /** The reply generator. `prompts` lists the prompts it was given, in
      order; the text it answers with is a parameter. */
  class ReplyGenerator {
    var prompts: seq<string>

    constructor ()
      ensures prompts == []
    {
      prompts := [];
    }

    /** generate_reply */
    method GenerateReply(prompt: string, answer: string) returns (text: string)
      modifies this
      ensures text == answer
      ensures prompts == old(prompts) + [prompt]
    {
      prompts := prompts + [prompt];
      text := answer;
    }
  }
}
