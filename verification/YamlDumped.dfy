/** What a dumped document says, event by event: the names of the anchors, their numbers, and which tags can be left
    out. */
module YamlDumped {
  import opened Options
  import opened Numerals
  import opened YamlEvents
  import opened YamlGraph
  import opened YamlNames
  import opened YamlDumper

  // ---- The names ----

  /** `id` and a number of three digits, or of more without leading zeros. */
  predicate IsAnchor(name: string, id: nat) {
    && |name| >= 5 && name[..2] == "id" && AllDigits(name[2..]) && Value(name[2..]) == id
    && (|name| > 5 ==> name[2] != '0')
  }

  lemma {:induction false} NoLeadingZero(n: nat)
    ensures |Decimal(n)| > 1 ==> Decimal(n)[0] != '0'
  {
    if n >= 10 {
      NoLeadingZero(n / 10);
      assert n / 10 < 10 ==> Decimal(n / 10) == [Digit(n / 10)];
    }
  }

  lemma {:induction false} PaddedIs(s: string)
    requires AllDigits(s)
    ensures AllDigits(Padded(s)) && |Padded(s)| == (if |s| < 3 then 3 else |s|) && (|s| > 3 ==> Padded(s) == s)
    decreases 3 - |s|
  {
    if |s| < 3 {
      PaddedIs("0" + s);
    }
  }

  lemma {:induction false} NameIs(id: nat)
    ensures IsAnchor(AnchorName(id), id)
  {
    DecimalValue(id);
    PaddedValue(Decimal(id));
    PaddedIs(Decimal(id));
    NoLeadingZero(id);
    assert AnchorName(id)[2..] == Padded(Decimal(id)) && AnchorName(id)[..2] == "id";
  }

  // ---- The numbers ----

  /** Every number up to the last is that of an anchor. */
  ghost predicate Numbered(t: Tally) {
    forall a | 1 <= a <= t.last :: HasAnchor(t, a)
  }

  ghost predicate HasAnchor(t: Tally, a: nat) {
    exists k | 0 <= k < |t.infos| :: t.infos[k].anchor == a
  }

  lemma {:induction false} MarkNumbered(t: Tally, i: nat)
    requires Numbered(t) && 1 <= i <= |t.infos|
    requires forall k | 0 <= k < |t.infos| :: t.infos[k].anchor != 0 <==> t.infos[k].references >= 2
    ensures Numbered(Mark(t, i))
  {
    var r := Mark(t, i);
    forall a | 1 <= a <= r.last ensures HasAnchor(r, a) {
      if a == t.last + 1 {
        assert r.infos[i - 1].anchor == a;
      } else {
        assert HasAnchor(t, a);
        var k :| 0 <= k < |t.infos| && t.infos[k].anchor == a;
        assert r.infos[k].anchor == a;
      }
    }
  }

  lemma {:induction false} AllNumbered(t: Tally, before: seq<Step>, steps: seq<Step>)
    requires Numbered(t) && Tallied(t, before) && StepsWithin(steps, |t.infos|)
    ensures Numbered(MarkAll(t, steps))
    decreases |steps|
  {
    if steps != [] {
      var r := if steps[0].Leave? then t else Mark(t, steps[0].node);
      if !steps[0].Leave? {
        MarkNumbered(t, steps[0].node);
      }
      TallyStep(t, before, steps[0]);
      AllNumbered(r, before + [steps[0]], steps[1..]);
    }
  }

  /** The anchors of a document have the numbers from 1 up to how many there are. */
  lemma {:induction false} AnchorsNumbered(doc: Document)
    requires InRange(doc) && doc != []
    ensures Numbered(Anchored(doc))
  {
    WalkWithin(doc, [], 1);
    AllNumbered(Blank(|doc|), [], Walk(doc, [], 1).steps);
  }

  // ---- The events ----

  /** The node of an event; its tag can be left out exactly if it is the one of its kind. */
  ghost predicate Says(e: Event, n: Node, id: nat) {
    match n
    case ScalarNode(tag, text, style) =>
      && e.Scalar? && Anchors(e.anchor, id) && e.tag == Some(tag) && e.text == text && e.style == style
      && (e.plain <==> tag == "tag:yaml.org,2002:str") && (e.quoted <==> tag == "tag:yaml.org,2002:str")
    case SequenceNode(tag, _, style) =>
      && e.SequenceStart? && Anchors(e.anchor, id) && e.tag == Some(tag) && e.style == style
      && (e.implicit <==> tag == "tag:yaml.org,2002:seq")
    case MappingNode(tag, _, style) =>
      && e.MappingStart? && Anchors(e.anchor, id) && e.tag == Some(tag) && e.style == style
      && (e.implicit <==> tag == "tag:yaml.org,2002:map")
  }

  ghost predicate Anchors(anchor: Option<string>, id: nat) {
    if id == 0 then anchor.None? else anchor.Some? && IsAnchor(anchor.value, id)
  }

  /** A node that is entered, met again or left. */
  ghost predicate Shows(e: Event, doc: Document, ids: seq<nat>, s: Step)
    requires 1 <= s.node <= |doc| == |ids|
  {
    match s
    case Enter(i) => Says(e, doc[i - 1], ids[i - 1])
    case Again(i) => e.Alias? && IsAnchor(e.name, ids[i - 1])
    case Leave(i) => e == if doc[i - 1].SequenceNode? then SequenceEnd else MappingEnd
  }

  lemma {:induction false} EventShows(doc: Document, ids: seq<nat>, s: Step)
    requires 1 <= s.node <= |doc| == |ids|
    ensures Shows(EventOf(doc, ids, s), doc, ids, s)
  {
    NameIs(ids[s.node - 1]);
  }

  /** Every event of a dump shows the step of the walk that it stands for. */
  lemma {:induction false} EventsShow(doc: Document, ids: seq<nat>, steps: seq<Step>, k: nat)
    requires |doc| == |ids| && StepsWithin(steps, |doc|) && k < |steps|
    ensures Shows(Events(doc, ids, steps)[k], doc, ids, steps[k])
    decreases |steps|
  {
    if k == 0 {
      EventShows(doc, ids, steps[0]);
    } else {
      EventsShow(doc, ids, steps[1..], k - 1);
    }
  }
}
