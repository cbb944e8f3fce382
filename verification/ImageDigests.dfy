/** Pinned images: what the digest test of a Pod compares, and what it makes of a Pod's verdict. */
module ImageDigests {
  import opened Evidence
  import opened Evaluation
  import opened Verdict
  import opened VerdictMeaning

  /** What follows the first at sign. */
  lemma {:induction false} AfterAtMeans(name: string, rest: string)
    requires '@' !in name
    ensures AfterAt(name + "@" + rest) == rest
  {
    var text := name + "@" + rest;
    if name == "" {
      assert text[0] == '@' && text[1..] == rest;
    } else {
      AfterAtMeans(name[1..], rest);
      assert text[0] == name[0] && text[1..] == name[1..] + "@" + rest;
    }
  }

  lemma {:induction false} ContainsMeans(text: string, part: string)
    ensures Contains(text, part) <==> exists x, y :: text == x + part + y
  {
    if part <= text {
      assert text == "" + part + text[|part|..];
    } else if Contains(text, part) {
      ContainsMeans(text[1..], part);
      var x, y :| text[1..] == x + part + y;
      assert text == [text[0]] + text[1..];
      assert text == ([text[0]] + x) + part + y;
    } else if text != "" {
      ContainsMeans(text[1..], part);
      forall x, y ensures text != x + part + y {
        if x == "" {
          assert part <= x + part + y;
        } else {
          assert (x + part + y)[1..] == x[1..] + part + y;
        }
      }
    } else {
      assert forall x, y :: |x + part + y| >= |part|;
    }
  }

  lemma EndsWithMeans(text: string, part: string)
    ensures EndsWith(text, part) <==> exists front :: text == front + part
  {
    if EndsWith(text, part) {
      assert text == text[..|text| - |part|] + part;
    }
    if front :| text == front + part {
      assert (front + part)[|front|..] == part;
    }
  }

  /** Some container runs an image whose identifier ends in the text. */
  ghost predicate Runs(statuses: seq<Json>, text: string) {
    exists k, front :: 0 <= k < |statuses| && Field(statuses[k], "imageID") == Str(front + text)
  }

  lemma RunsMeans(statuses: seq<Json>, text: string)
    ensures Runs(statuses, text) <==>
      exists k :: 0 <= k < |statuses| && HasDigest(Field(statuses[k], "imageID"), text)
  {
    if k, front :| 0 <= k < |statuses| && Field(statuses[k], "imageID") == Str(front + text) {
      EndsWithMeans(front + text, text);
      assert HasDigest(Field(statuses[k], "imageID"), text);
    }
    if k :| 0 <= k < |statuses| && HasDigest(Field(statuses[k], "imageID"), text) {
      EndsWithMeans(Field(statuses[k], "imageID").text, text);
      var front :| Field(statuses[k], "imageID").text == front + text;
      assert Field(statuses[k], "imageID") == Str(front + text);
    }
  }

  /** An image pinned by digest matches exactly when some container runs an image that ends in that digest. */
  lemma PinnedMatches(name: string, hex: string, statuses: seq<Json>)
    requires '@' !in name
    ensures DigestMatches(name + "@sha256:" + hex, statuses) <==> Runs(statuses, "sha256:" + hex)
  {
    var image := name + "@sha256:" + hex;
    assert image == name + "@" + ("sha256:" + hex);
    ContainsMeans(image, DIGEST_MARK);
    AfterAtMeans(name, "sha256:" + hex);
    RunsMeans(statuses, "sha256:" + hex);
  }

  lemma MarkHasAt(x: string, y: string)
    ensures '@' in x + DIGEST_MARK + y
  {
    assert (x + DIGEST_MARK + y)[|x|] == '@';
  }

  /** An image without an at sign is not pinned, and matches whatever runs. */
  lemma UnpinnedMatches(image: string, statuses: seq<Json>)
    requires '@' !in image
    ensures DigestMatches(image, statuses)
  {
    ContainsMeans(image, DIGEST_MARK);
    if x, y :| image == x + DIGEST_MARK + y {
      MarkHasAt(x, y);
    }
  }

  /** A Pod of a pinned workload passes, or warns, only when it runs the digest; otherwise it fails. */
  lemma PinnedPod(pod: Json, name: string, hex: string)
    requires '@' !in name
    ensures var verdict := PodVerdict(pod, name + "@sha256:" + hex);
      && (verdict == PASS || verdict == WARN ==>
          Runs(StatusesOf(pod).items, "sha256:" + hex) &&
          Field(ContainersOf(pod).items[0], "image") == Str(name + "@sha256:" + hex))
      && (PodKnown(pod) && !Runs(StatusesOf(pod).items, "sha256:" + hex) ==> verdict == FAIL)
  {
    if PodKnown(pod) {
      PinnedMatches(name, hex, StatusesOf(pod).items);
    }
  }

  const GRAFANA := "f772d434e8fab0049deb2b1b30abd43342bcfca1537614aa8d36080232cf4283"

  lemma GrafanaImage()
    ensures SIGNALFORGE.workloads[2].deployment == "grafana"
    ensures SIGNALFORGE.workloads[2].image == "grafana/grafana:13.2.1" + "@sha256:" + GRAFANA
    ensures '@' !in "grafana/grafana:13.2.1"
  {
  }

  /** So in SignalForge's scope a Grafana Pod under any other digest fails. */
  lemma GrafanaPod(pod: Json)
    ensures var verdict := PodVerdict(pod, SIGNALFORGE.workloads[2].image);
      && (verdict == PASS || verdict == WARN ==> Runs(StatusesOf(pod).items, "sha256:" + GRAFANA))
      && (PodKnown(pod) && !Runs(StatusesOf(pod).items, "sha256:" + GRAFANA) ==> verdict == FAIL)
  {
    GrafanaImage();
    PinnedPod(pod, "grafana/grafana:13.2.1", GRAFANA);
  }

  /** Every Pod of the workload runs the digest. */
  ghost predicate PodsRun(e: Item, text: string) {
    && Field(e.value, "items").List?
    && forall p :: 0 <= p < |Field(e.value, "items").items| ==>
        StatusesOf(Field(e.value, "items").items[p]).List? &&
        Runs(StatusesOf(Field(e.value, "items").items[p]).items, text)
  }

  lemma PinnedPods(e: Item, t: Workload, name: string, hex: string)
    requires PodsHealthy(e, t) && '@' !in name && t.image == name + "@sha256:" + hex
    ensures PodsRun(e, "sha256:" + hex) && |Field(e.value, "items").items| == t.replicas
  {
    HealthyPods(e, t);
    var pods := Field(e.value, "items").items;
    forall p | 0 <= p < |pods| ensures Runs(StatusesOf(pods[p]).items, "sha256:" + hex) {
      PinnedMatches(name, hex, StatusesOf(pods[p]).items);
    }
  }

  /** A healthy verdict says that every Pod of a pinned workload runs its digest. */
  lemma HealthyDigests(s: RawSnapshot, scope: Scope, w: nat, name: string, hex: string)
    requires IsHealthy(s, scope) && w < |scope.workloads|
    requires '@' !in name && scope.workloads[w].image == name + "@sha256:" + hex
    ensures var e := Find(s.evidence, PodsId(scope.workloads[w]));
      PodsRun(e, "sha256:" + hex) && |Field(e.value, "items").items| == scope.workloads[w].replicas
  {
    AllOfMeans(scope.workloads, PodsHealthyIn(s.evidence));
    assert PodsHealthyIn(s.evidence)(scope.workloads[w]);
    PinnedPods(Find(s.evidence, PodsId(scope.workloads[w])), scope.workloads[w], name, hex);
  }

  /** Exit code 0 in SignalForge's scope: the one Grafana Pod runs the one pinned digest. */
  lemma HealthyGrafana(s: RawSnapshot, show: Json -> string)
    requires ExitCode(ResultStatuses(ChecksOf(s, SIGNALFORGE, show))) == 0
    ensures var e := Find(s.evidence, PodsId(SIGNALFORGE.workloads[2]));
      PodsRun(e, "sha256:" + GRAFANA) && |Field(e.value, "items").items| == 1
  {
    ExitCodes(s, SIGNALFORGE, show);
    GrafanaImage();
    HealthyDigests(s, SIGNALFORGE, 2, "grafana/grafana:13.2.1", GRAFANA);
  }
}
