/** The bounded activity buffer of the resource service, against the full history it abbreviates. */
module ActivityLog {

  const MAX_ACTIVITY := 100

  datatype Service = Resources | Diagnostics

  datatype Code =
    | StaleScopeCode | CancelledCode | TimeoutCode | ForbiddenCode | UnauthenticatedCode | NotFoundCode
    | TooLargeCode | UnavailableCode | NamespaceRequiredCode | BusyCode | PodChangedCode
    | InvalidContainerCode | InvalidRequestCode | InternalErrorCode

  datatype Verdict = Succeeded | FailedWith(code: Code)

  datatype Activity = Activity(sequence: nat, service: Service, context: string, namespace: string, generation: nat,
                               verdict: Verdict, itemCount: nat, truncated: bool)

  function Latest(history: seq<Activity>): seq<Activity> {
    if |history| > MAX_ACTIVITY then history[|history| - MAX_ACTIVITY..] else history
  }

  /** Entry k of the full history carries number k + 1. */
  ghost predicate Numbered(history: seq<Activity>) {
    forall k :: 0 <= k < |history| ==> history[k].sequence == k + 1
  }

  /** The history after one more entry, whatever number the entry came with. */
  function Recorded(history: seq<Activity>, entry: Activity): seq<Activity> {
    history + [entry.(sequence := |history| + 1)]
  }

  class ActivityBuffer {
    var sequence: nat
    var activity: seq<Activity>
    ghost var history: seq<Activity>

    ghost predicate Valid()
      reads this
    {
      sequence == |history| && Numbered(history) && activity == Latest(history)
    }

    constructor ()
      ensures Valid() && history == []
    {
      sequence, activity, history := 0, [], [];
    }

    method Record(entry: Activity)
      requires Valid()
      modifies this
      ensures Valid() && history == Recorded(old(history), entry)
    {
      sequence := sequence + 1;
      var numbered := entry.(sequence := sequence);
      activity := activity + [numbered];
      if |activity| > MAX_ACTIVITY {
        activity := activity[|activity| - MAX_ACTIVITY..];
      }
      history := history + [numbered];
    }

    method Activity() returns (entries: seq<Activity>)
      requires Valid()
      ensures entries == Latest(history)
    {
      entries := activity;
    }
  }

  /** What is kept is a run of consecutive numbers that ends at the last one given out. */
  lemma LatestIsConsecutive(history: seq<Activity>)
    requires Numbered(history)
    ensures var kept := Latest(history);
      && |kept| == (if |history| < 100 then |history| else 100)
      && (forall k :: 0 <= k < |kept| ==> kept[k] == history[|history| - |kept| + k])
      && forall k :: 0 <= k < |kept| ==> kept[k].sequence == |history| - |kept| + k + 1
  {
    var kept := Latest(history);
    forall k | 0 <= k < |kept| ensures kept[k].sequence == |history| - |kept| + k + 1 {
      assert kept[k] == history[|history| - |kept| + k];
    }
  }
}
