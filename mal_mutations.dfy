/** The mutation observer of the MyAnimeList content script
    (src/content/myanimelist/index.ts): a batch of DOM changes schedules a
    new scan for covers only when some change is not one of the script's own
    insertions (a download button or the toast container). */
module MalMutations {
  import opened Wrappers

  const ButtonClass := "harmoni-download-btn"
  const ToastContainerId := "harmoni-toast-container"

  /** A DOM node as far as the filter looks at it: an element with its class
      list and id, or any other node (text, comment). */
  datatype Node = Element(classes: seq<string>, id: string) | OtherNode

  datatype MutationKind = ChildList | Attributes | CharacterData

  /** A mutation record: its kind, its target, the nodes it added and, for an
      attribute change, the attribute's name. */
  datatype Mutation = Mutation(kind: MutationKind, target: Node, added: seq<Node>, attributeName: Option<string>)

  /** `classList?.contains('harmoni-download-btn')`: false for a node with no
      class list. */
  predicate IsButton(n: Node) {
    n.Element? && ButtonClass in n.classes
  }

  /** One of the script's own elements: a download button or the toast
      container. */
  predicate IsOurs(n: Node) {
    IsButton(n) || (n.Element? && n.id == ToastContainerId)
  }

  predicate AllOurs(nodes: seq<Node>) {
    forall i :: 0 <= i < |nodes| ==> IsOurs(nodes[i])
  }

  /** The verdict on one record, in the order the callback tests: a record
      on our own element is skipped; one that adds only our own elements is
      skipped; otherwise it counts when it adds anything or changes a `src`
      attribute of an element that is not a button. */
  function Relevant(m: Mutation): (r: bool)
    ensures r <==> !IsOurs(m.target) &&
                   ((|m.added| > 0 && exists i :: 0 <= i < |m.added| && !IsOurs(m.added[i])) ||
                    (|m.added| == 0 && m.kind == Attributes && m.attributeName == Some("src")))
  {
    if IsOurs(m.target) then false
    else if |m.added| > 0 && AllOurs(m.added) then false
    else |m.added| > 0 || (m.kind == Attributes && m.attributeName == Some("src") && !IsButton(m.target))
  }

  /** The `forEach` over the added nodes that clears `allOurs` at the first
      node that is not ours, and keeps walking. */
  method AddedAllOurs(added: seq<Node>) returns (allOurs: bool)
    ensures allOurs <==> AllOurs(added)
  {
    allOurs := true;
    var i := 0;
    while i < |added|
      invariant 0 <= i <= |added|
      invariant allOurs <==> AllOurs(added[..i])
    {
      if !IsOurs(added[i]) {
        allOurs := false;
      }
      assert added[..i + 1] == added[..i] + [added[i]];
      i := i + 1;
    }
    assert added[..i] == added;
  }

  /** The callback `mutations.some` applies to one record. */
  method MutationIsRelevant(m: Mutation) returns (r: bool)
    ensures r == Relevant(m)
  {
    if IsOurs(m.target) {
      return false;
    }
    if |m.added| > 0 {
      var allOurs := AddedAllOurs(m.added);
      if allOurs {
        return false;
      }
    }
    r := |m.added| > 0 || (m.kind == Attributes && m.attributeName == Some("src") && !IsButton(m.target));
  }

  /** `mutations.some(...)`: a rescan is scheduled exactly when some record
      of the batch is relevant. */
  function ShouldUpdate(batch: seq<Mutation>): (r: bool)
    ensures r <==> exists i :: 0 <= i < |batch| && Relevant(batch[i])
  {
    if batch == [] then false
    else Relevant(batch[0]) || ShouldUpdate(batch[1..])
  }

  /** A batch made only of the script's own insertions (or of changes on its
      own elements) never schedules a rescan, so adding buttons does not make
      the scan run again. */
  lemma {:induction false} OwnChangesIgnored(batch: seq<Mutation>)
    requires forall i :: 0 <= i < |batch| ==>
               IsOurs(batch[i].target) || (|batch[i].added| > 0 && AllOurs(batch[i].added))
    ensures !ShouldUpdate(batch)
  {
    forall i | 0 <= i < |batch|
      ensures !Relevant(batch[i])
    {
      if !IsOurs(batch[i].target) {
        assert AllOurs(batch[i].added);
      }
    }
  }

  /** The verdict on two batches delivered together is the verdict on either. */
  lemma {:induction false} ShouldUpdateAppend(a: seq<Mutation>, b: seq<Mutation>)
    ensures ShouldUpdate(a + b) <==> ShouldUpdate(a) || ShouldUpdate(b)
  {
    if ShouldUpdate(a + b) {
      var i :| 0 <= i < |a + b| && Relevant((a + b)[i]);
      if i < |a| {
        assert Relevant(a[i]);
      } else {
        assert Relevant(b[i - |a|]);
      }
    }
    if ShouldUpdate(a) {
      var i :| 0 <= i < |a| && Relevant(a[i]);
      assert (a + b)[i] == a[i];
    }
    if ShouldUpdate(b) {
      var i :| 0 <= i < |b| && Relevant(b[i]);
      assert (a + b)[|a| + i] == b[i];
    }
  }

  /** A new `src` on an image the script does not own triggers a rescan. */
  lemma ImageSourceChangeTriggers(img: Node, rest: seq<Mutation>)
    requires !IsOurs(img)
    ensures ShouldUpdate([Mutation(Attributes, img, [], Some("src"))] + rest)
  {
    var batch := [Mutation(Attributes, img, [], Some("src"))] + rest;
    assert Relevant(batch[0]);
  }
}
