/** What a command preview tells kubectl: the value of each option, and the words that are not options. */
module PreviewMeaning {
  import opened ShellPreview

  /** The option is given once, with this value: no word that begins with it holds another. */
  ghost predicate Gives(words: seq<string>, option: string, value: string) {
    option + value in words && forall w :: w in words && option <= w ==> w == option + value
  }

  ghost predicate Omits(words: seq<string>, option: string) {
    forall w :: w in words ==> !(option <= w)
  }

  predicate IsOption(word: string) {
    word != "" && word[0] == '-'
  }

  /** What kubectl is told: the command, the bounds, and the scope and Pod that were asked for. */
  ghost predicate Tells(words: seq<string>, context: string, namespace: string, pod: string, target: Target) {
    && Gives(words, "--context=", context) && Gives(words, "--namespace=", namespace)
    && Gives(words, "--request-timeout=", "5s") && words[..1] == ["kubectl"]
    && match target
       case Logs(container, previous) =>
         && Gives(words, "--container=", container) && Gives(words, "--previous=", if previous then "true" else "false")
         && Gives(words, "--tail=", "500") && Gives(words, "--limit-bytes=", "65536")
         && Gives(words, "--follow=", "false") && Omits(words, "--field-selector=")
         && (forall w :: w in words && !IsOption(w) ==> w == "kubectl" || w == "logs" || w == pod)
         && "logs" in words && pod in words
       case Events =>
         && Gives(words, "--field-selector=", "involvedObject.kind=Pod,involvedObject.name=" + pod)
         && Omits(words, "--container=") && Omits(words, "--previous=")
         && (forall w :: w in words && !IsOption(w) ==> w == "kubectl" || w == "get" || w == "events")
         && "get" in words && "events" in words
  }

  // ----- Telling the words apart -----

  /** Three characters tell the words of a preview apart. */
  datatype Mark = Mark(first: char, third: char, seventh: char)

  function MarkOf(word: string): Mark {
    Mark(if |word| > 0 then word[0] else ' ', if |word| > 2 then word[2] else ' ', if |word| > 6 then word[6] else ' ')
  }

  const CONTEXT_MARK := Mark('-', 'c', 'e')
  const NAMESPACE_MARK := Mark('-', 'n', 's')
  const CONTAINER_MARK := Mark('-', 'c', 'a')
  const TAIL_MARK := Mark('-', 't', '=')
  const LIMIT_MARK := Mark('-', 'l', 't')
  const FOLLOW_MARK := Mark('-', 'f', 'o')
  const PREVIOUS_MARK := Mark('-', 'p', 'i')
  const TIMEOUT_MARK := Mark('-', 'r', 'e')
  const SELECTOR_MARK := Mark('-', 'f', 'd')

  lemma OptionMarks()
    ensures MarkOf("--context=") == CONTEXT_MARK && MarkOf("--namespace=") == NAMESPACE_MARK
    ensures MarkOf("--container=") == CONTAINER_MARK && MarkOf("--tail=") == TAIL_MARK
    ensures MarkOf("--limit-bytes=") == LIMIT_MARK && MarkOf("--follow=") == FOLLOW_MARK
    ensures MarkOf("--previous=") == PREVIOUS_MARK && MarkOf("--request-timeout=") == TIMEOUT_MARK
    ensures MarkOf("--field-selector=") == SELECTOR_MARK
  {
  }

  lemma AppendKeepsMark(option: string, value: string)
    requires |option| >= 7
    ensures MarkOf(option + value) == MarkOf(option)
  {
  }

  lemma GivesAt(words: seq<string>, option: string, value: string, at: nat)
    requires |option| >= 7 && at < |words| && words[at] == option + value
    requires forall k :: 0 <= k < |words| && k != at ==> MarkOf(words[k]) != MarkOf(option)
    ensures Gives(words, option, value)
  {
    forall w | w in words && option <= w ensures w == option + value {
      var k :| 0 <= k < |words| && words[k] == w;
      assert MarkOf(w) == MarkOf(option);
    }
  }

  lemma OmitsAll(words: seq<string>, option: string)
    requires |option| >= 7
    requires forall k :: 0 <= k < |words| ==> MarkOf(words[k]) != MarkOf(option)
    ensures Omits(words, option)
  {
    forall w | w in words ensures !(option <= w) {
      var k :| 0 <= k < |words| && words[k] == w;
      assert option <= w ==> MarkOf(w) == MarkOf(option);
    }
  }

  // ----- Both previews -----

  lemma ScopeMarks(words: seq<string>, context: string, namespace: string)
    requires |words| > 4 && words[0] == "kubectl" && words[1] == "--kubeconfig=<explicit-kubeconfig>"
    requires words[2] == "--context=" + context && words[3] == "--namespace=" + namespace
    ensures MarkOf(words[0]).first != '-' && MarkOf(words[1]) == Mark('-', 'k', 'c')
    ensures MarkOf(words[2]) == CONTEXT_MARK && MarkOf(words[3]) == NAMESPACE_MARK
  {
    OptionMarks();
    AppendKeepsMark("--context=", context);
    AppendKeepsMark("--namespace=", namespace);
  }

  lemma CommonTells(words: seq<string>, context: string, namespace: string)
    requires |words| > 4 && words[0] == "kubectl" && words[1] == "--kubeconfig=<explicit-kubeconfig>"
    requires words[2] == "--context=" + context && words[3] == "--namespace=" + namespace
    requires words[|words| - 1] == "--request-timeout=" + "5s"
    requires forall k :: 4 <= k < |words| - 1 ==>
      MarkOf(words[k]) != CONTEXT_MARK && MarkOf(words[k]) != NAMESPACE_MARK && MarkOf(words[k]) != TIMEOUT_MARK
    ensures Gives(words, "--context=", context) && Gives(words, "--namespace=", namespace)
    ensures Gives(words, "--request-timeout=", "5s") && words[..1] == ["kubectl"]
  {
    ScopeMarks(words, context, namespace);
    OptionMarks();
    AppendKeepsMark("--request-timeout=", "5s");
    GivesAt(words, "--context=", context, 2);
    GivesAt(words, "--namespace=", namespace, 3);
    GivesAt(words, "--request-timeout=", "5s", |words| - 1);
  }

  // ----- Logs -----

  predicate AreLogWords(words: seq<string>, context: string, namespace: string, pod: string, container: string,
                        previous: string) {
    && |words| == 12 && words[0] == "kubectl" && words[1] == "--kubeconfig=<explicit-kubeconfig>"
    && words[2] == "--context=" + context && words[3] == "--namespace=" + namespace
    && words[4] == "logs" && words[5] == pod && words[6] == "--container=" + container
    && words[7] == "--tail=" + "500" && words[8] == "--limit-bytes=" + "65536" && words[9] == "--follow=" + "false"
    && words[10] == "--previous=" + previous && words[11] == "--request-timeout=" + "5s"
  }

  predicate HaveLogMarks(words: seq<string>) {
    && |words| == 12 && MarkOf(words[0]).first != '-' && MarkOf(words[1]) == Mark('-', 'k', 'c')
    && MarkOf(words[2]) == CONTEXT_MARK && MarkOf(words[3]) == NAMESPACE_MARK
    && MarkOf(words[4]).first != '-' && MarkOf(words[5]).first != '-' && MarkOf(words[6]) == CONTAINER_MARK
    && MarkOf(words[7]) == TAIL_MARK && MarkOf(words[8]) == LIMIT_MARK && MarkOf(words[9]) == FOLLOW_MARK
    && MarkOf(words[10]) == PREVIOUS_MARK && MarkOf(words[11]) == TIMEOUT_MARK
  }

  lemma LogWords(context: string, namespace: string, pod: string, container: string, previous: bool)
    returns (words: seq<string>)
    ensures words == ["kubectl"] + Arguments(context, namespace, pod, Logs(container, previous))
    ensures AreLogWords(words, context, namespace, pod, container, if previous then "true" else "false")
  {
    words := ["kubectl"] + Arguments(context, namespace, pod, Logs(container, previous));
    assert words[7] == "--tail=500" && words[8] == "--limit-bytes=65536" && words[9] == "--follow=false";
    assert words[11] == "--request-timeout=5s";
  }

  lemma LogMarks(words: seq<string>, context: string, namespace: string, pod: string, container: string,
                 previous: string)
    requires AreLogWords(words, context, namespace, pod, container, previous) && !IsOption(pod)
    ensures HaveLogMarks(words)
  {
    ScopeMarks(words, context, namespace);
    OptionMarks();
    AppendKeepsMark("--container=", container);
    AppendKeepsMark("--tail=", "500");
    AppendKeepsMark("--limit-bytes=", "65536");
    AppendKeepsMark("--follow=", "false");
    AppendKeepsMark("--previous=", previous);
    AppendKeepsMark("--request-timeout=", "5s");
  }

  lemma LogTargets(words: seq<string>, container: string, previous: string)
    requires HaveLogMarks(words) && words[6] == "--container=" + container && words[10] == "--previous=" + previous
    ensures Gives(words, "--container=", container) && Gives(words, "--previous=", previous)
    ensures Omits(words, "--field-selector=")
  {
    OptionMarks();
    GivesAt(words, "--container=", container, 6);
    GivesAt(words, "--previous=", previous, 10);
    OmitsAll(words, "--field-selector=");
  }

  lemma LogBounds(words: seq<string>)
    requires HaveLogMarks(words) && words[7] == "--tail=" + "500" && words[8] == "--limit-bytes=" + "65536"
    requires words[9] == "--follow=" + "false"
    ensures Gives(words, "--tail=", "500") && Gives(words, "--limit-bytes=", "65536")
    ensures Gives(words, "--follow=", "false")
  {
    OptionMarks();
    GivesAt(words, "--tail=", "500", 7);
    GivesAt(words, "--limit-bytes=", "65536", 8);
    GivesAt(words, "--follow=", "false", 9);
  }

  lemma PlainLogWords(words: seq<string>, pod: string)
    requires HaveLogMarks(words) && words[0] == "kubectl" && words[4] == "logs" && words[5] == pod
    ensures forall w :: w in words && !IsOption(w) ==> w == "kubectl" || w == "logs" || w == pod
    ensures "logs" in words && pod in words
  {
    forall w | w in words && !IsOption(w) ensures w == "kubectl" || w == "logs" || w == pod {
      var k :| 0 <= k < |words| && words[k] == w;
    }
  }

  lemma LogOptions(words: seq<string>, context: string, namespace: string, pod: string, container: string,
                   previous: string)
    requires AreLogWords(words, context, namespace, pod, container, previous) && !IsOption(pod)
    ensures Gives(words, "--container=", container) && Gives(words, "--previous=", previous)
    ensures Gives(words, "--tail=", "500") && Gives(words, "--limit-bytes=", "65536")
    ensures Gives(words, "--follow=", "false") && Omits(words, "--field-selector=")
    ensures forall w :: w in words && !IsOption(w) ==> w == "kubectl" || w == "logs" || w == pod
    ensures "logs" in words && pod in words
  {
    LogMarks(words, context, namespace, pod, container, previous);
    LogTargets(words, container, previous);
    LogBounds(words);
    PlainLogWords(words, pod);
  }

  lemma LogsCommon(words: seq<string>, context: string, namespace: string, pod: string, container: string,
                   previous: string)
    requires AreLogWords(words, context, namespace, pod, container, previous) && !IsOption(pod)
    ensures Gives(words, "--context=", context) && Gives(words, "--namespace=", namespace)
    ensures Gives(words, "--request-timeout=", "5s") && words[..1] == ["kubectl"]
  {
    LogMarks(words, context, namespace, pod, container, previous);
    CommonTells(words, context, namespace);
  }

  lemma LogsTell(context: string, namespace: string, pod: string, container: string, previous: bool)
    requires !IsOption(pod)
    ensures Tells(["kubectl"] + Arguments(context, namespace, pod, Logs(container, previous)), context, namespace, pod,
                  Logs(container, previous))
  {
    var words := LogWords(context, namespace, pod, container, previous);
    LogsCommon(words, context, namespace, pod, container, if previous then "true" else "false");
    LogOptions(words, context, namespace, pod, container, if previous then "true" else "false");
  }

  // ----- Events -----

  lemma EventWords(context: string, namespace: string, pod: string) returns (words: seq<string>)
    ensures words == ["kubectl"] + Arguments(context, namespace, pod, Events) && |words| == 8
    ensures words[0] == "kubectl" && words[1] == "--kubeconfig=<explicit-kubeconfig>"
    ensures words[2] == "--context=" + context && words[3] == "--namespace=" + namespace
    ensures words[4] == "get" && words[5] == "events"
    ensures words[6] == "--field-selector=" + ("involvedObject.kind=Pod,involvedObject.name=" + pod)
    ensures words[7] == "--request-timeout=" + "5s"
  {
    words := ["kubectl"] + Arguments(context, namespace, pod, Events);
    assert words[7] == "--request-timeout=5s";
  }

  lemma EventOptions(words: seq<string>, selector: string)
    requires |words| == 8 && words[6] == "--field-selector=" + selector
    requires words[0] == "kubectl" && words[4] == "get" && words[5] == "events"
    requires MarkOf(words[0]).first != '-' && MarkOf(words[1]) == Mark('-', 'k', 'c')
    requires MarkOf(words[2]) == CONTEXT_MARK && MarkOf(words[3]) == NAMESPACE_MARK
    requires MarkOf(words[4]).first != '-' && MarkOf(words[5]).first != '-' && MarkOf(words[6]) == SELECTOR_MARK
    requires MarkOf(words[7]) == TIMEOUT_MARK
    ensures Gives(words, "--field-selector=", selector)
    ensures Omits(words, "--container=") && Omits(words, "--previous=")
    ensures forall w :: w in words && !IsOption(w) ==> w == "kubectl" || w == "get" || w == "events"
  {
    OptionMarks();
    GivesAt(words, "--field-selector=", selector, 6);
    OmitsAll(words, "--container=");
    OmitsAll(words, "--previous=");
    forall w | w in words && !IsOption(w) ensures w == "kubectl" || w == "get" || w == "events" {
      var k :| 0 <= k < |words| && words[k] == w;
    }
  }

  lemma EventsTell(context: string, namespace: string, pod: string)
    ensures Tells(["kubectl"] + Arguments(context, namespace, pod, Events), context, namespace, pod, Events)
  {
    var words := EventWords(context, namespace, pod);
    ScopeMarks(words, context, namespace);
    OptionMarks();
    AppendKeepsMark("--field-selector=", "involvedObject.kind=Pod,involvedObject.name=" + pod);
    AppendKeepsMark("--request-timeout=", "5s");
    assert MarkOf(words[4]) == Mark('g', 't', ' ') && MarkOf(words[5]) == Mark('e', 'e', ' ');
    CommonTells(words, context, namespace);
    EventOptions(words, "involvedObject.kind=Pod,involvedObject.name=" + pod);
  }

  /**
   The arguments give the scope, the Pod and the bounds, and nothing else in their place. The service
   asks of a Pod's name that it is a DNS name, so it is never itself an option.
   */
  lemma ArgumentsTell(context: string, namespace: string, pod: string, target: Target)
    requires target.Logs? ==> !IsOption(pod)
    ensures Tells(["kubectl"] + Arguments(context, namespace, pod, target), context, namespace, pod, target)
  {
    match target
    case Logs(container, previous) => LogsTell(context, namespace, pod, container, previous);
    case Events => EventsTell(context, namespace, pod);
  }
}
