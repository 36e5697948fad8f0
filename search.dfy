/** The calls the search engine (`Global::State_space::explore`) makes into
    an agent during one exploration pass. The search itself is not part of
    this model: a pass is given as the list of calls it makes, and each
    driver replays that list against its agent's hooks. Search nodes are
    numbered in creation order; node 0 is the root, whose attachment comes
    from `create_initial_node_attachment`. */
module Search {
  import opened ProblemModel

  datatype Event =
      /** The search considers taking `job` from node `parent`: it asks
          `is_allowed`, and when the agent agrees it creates a new node
          whose attachment comes from `create_next_node_attachment`. */
    | Expand(parent: nat, job: Job)
      /** The search finds that taking `job` from `parent` reaches a state
          equal to node `destination`: after `is_allowed`, it asks
          `allow_merge`; on agreement it calls `merge_node_attachments`,
          otherwise it creates a new node as for `Expand`. */
    | Merge(destination: nat, parent: nat, job: Job)
      /** `missed_deadline` at `node`, where `lateJob` misses its deadline
          and `scheduled` is the node's set of already scheduled jobs. */
    | MissedDeadline(node: nat, lateJob: Job, scheduled: IndexSet)
      /** `encountered_dead_end` at `node`. */
    | DeadEnd(node: nat)
      /** `finished_node` at `node`: every job has been scheduled there. */
    | Finished(node: nat)

  /** The search reports a failure at a node: a deadline miss or a dead end. */
  predicate IsFailure(e: Event) {
    e.MissedDeadline? || e.DeadEnd?
  }

  /** The search considers taking one of `jobs`. */
  predicate ExpandsWith(e: Event, jobs: seq<nat>) {
    e.Expand? && e.job.index in jobs
  }
}
