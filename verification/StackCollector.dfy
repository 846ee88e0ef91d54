/** Collecting stacks for a profile, with annotations stored once. */
module StackCollectors {
  import opened Wrappers
  import opened Profiles
  import opened ProfileBuilders

  class StackCollector {
    const mappings: seq<Mapping>
    var annotations: seq<string>
    var stacks: seq<(WeightedStack, Option<nat>)>
    /** The stacks and annotations pushed so far. */
    ghost var pushed: seq<(WeightedStack, Option<string>)>

    function View(): StackProfile
      reads this
    {
      StackProfile(annotations, stacks, mappings)
    }

    /** Each annotation is stored once, and the stacks with their annotations are those pushed. */
    ghost predicate Valid()
      reads this
    {
      && WellFormed(View())
      && (forall j, k :: 0 <= j < k < |annotations| ==> annotations[j] != annotations[k])
      && |stacks| == |pushed|
      && (forall k :: 0 <= k < |stacks| ==> stacks[k].0 == pushed[k].0 && Annotation(View(), k) == pushed[k].1)
    }

    constructor (mappings: seq<Mapping>)
      ensures Valid() && pushed == [] && this.mappings == mappings
    {
      this.mappings := mappings;
      annotations, stacks, pushed := [], [], [];
    }

    /** The first place of an annotation. */
    method Position(annotation: string) returns (idx: Option<nat>)
      ensures idx.None? <==> annotation !in annotations
      ensures idx.Some? ==> idx.value < |annotations| && annotations[idx.value] == annotation
    {
      for k := 0 to |annotations|
        invariant annotation !in annotations[..k]
      {
        if annotations[k] == annotation {
          return Some(k);
        }
        assert annotations[..k + 1] == annotations[..k] + [annotations[k]];
      }
      assert annotations[..|annotations|] == annotations;
      return None;
    }

    method PushStack(stack: WeightedStack, annotation: Option<string>)
      requires Valid()
      modifies this
      ensures Valid() && pushed == old(pushed) + [(stack, annotation)]
      ensures annotations == if annotation.Some? && annotation.value !in old(annotations)
                             then old(annotations) + [annotation.value] else old(annotations)
    {
      var annoIdx: Option<nat> := None;
      if annotation.Some? {
        annoIdx := Position(annotation.value);
        if annoIdx.None? {
          annotations := annotations + [annotation.value];
          annoIdx := Some(|annotations| - 1);
        }
      }
      stacks := stacks + [(stack, annoIdx)];
      pushed := pushed + [(stack, annotation)];
    }
  }
}
