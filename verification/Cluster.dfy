/** Everything outside the controller that it reads or writes: the stored policy status, the Zalando
    CR, and the workloads it restarts. */
module Cluster {
  import opened Basics
  import opened PolicyTypes
  import opened MergePatch
  import opened ZalandoPatch
  import Sizing

  class Cluster {
    var status: Status                 // as the API server stores it
    var tree: Option<Json>             // the Zalando CR, if it exists
    var restarted: seq<PostAction>     // restarts triggered so far, oldest first

    constructor (tree: Option<Json>)
      ensures this.tree == tree && status == Status([], [], None, None) && restarted == []
    {
      this.status := Status([], [], None, None);
      this.tree := tree;
      restarted := [];
    }

    /** Sends one write. The API server refuses it when there is no CR to patch. */
    method PatchResources(spec: PolicySpec, write: Write, response: PatchOutcome) returns (failed: bool)
      modifies this`tree
      ensures failed <==> old(tree).None? || !response.Accepted?
      ensures tree == if old(tree).None? || response.Refused? then old(tree)
                      else Some(Merge(old(tree), PatchOf(spec, write)))
    {
      var limit := Sizing.MemoryLimit(spec, write.memory);
      var patch := BuildMemoryPatch(write.memory, limit);
      if write.cpu.Some? {
        patch := BuildMemoryCPUPatch(write.memory, limit, write.cpu.value);
      }
      if |write.parameters| > 0 {
        patch := AddPostgresParametersPatch(patch, write.parameters);
      }
      if tree.None? || response.Refused? {
        return true;
      }
      tree := Some(Merge(tree, patch));
      return !response.Accepted?;
    }
  }
}
