/** Multi-pass transcription voting: cluster words into time slots and elect one word a slot. Times
    and probabilities are reals; text normalization is an arbitrary function. */
module QaVoting {
  import opened Reals
  import opened Sequences
  import opened Wrappers
  import opened Segmentation
  import opened StableSort

  datatype Word = Word(start: real, end: real, text: string, probability: real)

  /** A word together with the transcription pass it came from. */
  datatype Heard = Heard(word: Word, pass: nat)

  type Normalizer = string -> string

  // ----- time slots

  datatype Span = Span(start: real, end: real)
  {
    function Widen(w: Word): Span {
      Span(Min(start, w.start), Max(end, w.end))
    }

    /** Overlap with `w`, relative to the shorter of the two. */
    function OverlapRatio(w: Word): real {
      var overlap := Max(0.0, Min(end, w.end) - Max(start, w.start));
      var shorter := Min(w.end - w.start, end - start);
      if shorter > 0.0 then overlap / shorter else 0.0
    }
  }

  lemma Fraction(part: real, whole: real)
    requires 0.0 <= part <= whole && whole > 0.0
    ensures 0.0 <= part / whole <= 1.0
    ensures part / whole * whole == part
    ensures part / whole == 0.0 <==> part == 0.0
    ensures part / whole == 1.0 <==> part == whole
  {
    var q := part / whole;
    assert q * whole == part;
    assert (q - 1.0) * whole == part - whole;
  }

  /** The ratio is the length of the common part, as a fraction of the shorter of the two, and lies
      between 0 and 1. It is 0 exactly for a word that at most touches the span or one
      of no length, and 1 exactly when both have a length and one contains the other: a finer split
      of a sound joins the slot of the whole sound. */
  lemma OverlapMeaning(span: Span, w: Word)
    requires span.start <= span.end && w.start <= w.end
    ensures 0.0 <= span.OverlapRatio(w) <= 1.0
    ensures span.start < span.end && w.start < w.end ==>
              span.OverlapRatio(w) * Min(w.end - w.start, span.end - span.start)
              == if w.end <= span.start || span.end <= w.start then 0.0
                 else Min(span.end, w.end) - Max(span.start, w.start)
    ensures span.OverlapRatio(w) == 0.0 <==>
              w.end <= span.start || span.end <= w.start || w.start == w.end || span.start == span.end
    ensures span.OverlapRatio(w) == 1.0 <==>
              && w.start < w.end && span.start < span.end
              && ((span.start <= w.start && w.end <= span.end) || (w.start <= span.start && span.end <= w.end))
  {
    var overlap := Max(0.0, Min(span.end, w.end) - Max(span.start, w.start));
    var shorter := Min(w.end - w.start, span.end - span.start);
    if shorter > 0.0 {
      Fraction(overlap, shorter);
    }
  }

  /** The union span of a slot. */
  function SpanOf(slot: seq<Heard>): Span
    requires slot != []
  {
    if |slot| == 1 then Span(slot[0].word.start, slot[0].word.end)
    else SpanOf(Init(slot)).Widen(Last(slot).word)
  }

  /** The span of a slot is the smallest one that covers its words. */
  lemma {:induction false} SpanCovers(slot: seq<Heard>)
    requires slot != []
    ensures forall h :: h in slot ==> SpanOf(slot).start <= h.word.start && h.word.end <= SpanOf(slot).end
    ensures (exists h :: h in slot && h.word.start == SpanOf(slot).start)
            && (exists h :: h in slot && h.word.end == SpanOf(slot).end)
  {
    if |slot| > 1 {
      SpanCovers(Init(slot));
      var first :| first in Init(slot) && first.word.start == SpanOf(Init(slot)).start;
      var last :| last in Init(slot) && last.word.end == SpanOf(Init(slot)).end;
      assert first in slot && last in slot && Last(slot) in slot;
      assert forall h :: h in slot ==> h in Init(slot) || h == Last(slot);
    } else {
      assert slot[0] in slot;
    }
  }

  /** When a word belongs to the slot before it. */
  function SameSlot(threshold: real): (seq<Heard>, Heard) -> bool {
    (slot: seq<Heard>, h: Heard) => slot != [] && SpanOf(slot).OverlapRatio(h.word) >= threshold
  }

  lemma SpanWidens(slot: seq<Heard>, h: Heard)
    requires slot != []
    ensures SpanOf(slot + [h]) == SpanOf(slot).Widen(h.word)
  {
    assert Init(slot + [h]) == slot;
  }

  method ClusterWordsIntoSlots(words: seq<Heard>, threshold: real) returns (slots: seq<seq<Heard>>)
    ensures slots == Cut(SameSlot(threshold), words)
  {
    slots := [];
    var span: Option<Span> := None;
    ghost var joins := SameSlot(threshold);
    for i := 0 to |words|
      invariant slots == Cut(joins, words[..i])
      invariant span == if slots == [] then None else Some(SpanOf(Last(slots)))
    {
      assert Init(words[..i + 1]) == words[..i];
      var word := words[i].word;
      var ratio := if span.Some? then span.value.OverlapRatio(word) else 0.0;
      if span.Some? && ratio >= threshold {
        SpanWidens(Last(slots), words[i]);
        slots, span := Init(slots) + [Last(slots) + [words[i]]], Some(span.value.Widen(word));
      } else {
        slots, span := slots + [[words[i]]], Some(Span(word.start, word.end));
      }
    }
    assert words[..|words|] == words;
  }

  // ----- the vote in one slot

  function Key(norm: Normalizer, h: Heard): string {
    norm(h.word.text)
  }

  /** The words of a slot that vote for text `k`, in order. */
  function Ballot(slot: seq<Heard>, norm: Normalizer, k: string): seq<Heard> {
    if slot == [] then []
    else Ballot(Init(slot), norm, k) + if Key(norm, Last(slot)) == k then [Last(slot)] else []
  }

  function Mass(ballot: seq<Heard>): real {
    if ballot == [] then 0.0 else Mass(Init(ballot)) + Last(ballot).word.probability
  }

  datatype Weight = Weight(votes: nat, mass: real)
  {
    /** More votes, or as many with a greater sum of probabilities. */
    predicate Exceeds(other: Weight) {
      votes > other.votes || (votes == other.votes && mass > other.mass)
    }
  }

  function WeightOf(ballot: seq<Heard>): Weight {
    Weight(|ballot|, Mass(ballot))
  }

  /** How much each text weighs in a slot. */
  function WeightIn(slot: seq<Heard>, norm: Normalizer): string -> Weight {
    k => WeightOf(Ballot(slot, norm, k))
  }

  /** Words from at least two distinct passes. */
  ghost predicate Quorum(slot: seq<Heard>) {
    exists i, j :: 0 <= i < j < |slot| && slot[i].pass != slot[j].pass
  }

  /** `k` is first voted for before `l` is. */
  ghost predicate Earlier(slot: seq<Heard>, norm: Normalizer, k: string, l: string) {
    exists i :: 0 <= i < |slot| && Key(norm, slot[i]) == k && forall j :: 0 <= j <= i ==> Key(norm, slot[j]) != l
  }

  /** Text `l` weighs no more than `k`, and if it weighs as much, `k` is heard before it. */
  ghost predicate Prevails(slot: seq<Heard>, norm: Normalizer, weight: string -> Weight, k: string, l: string) {
    && !weight(l).Exceeds(weight(k))
    && (l == k || weight(k).Exceeds(weight(l)) || Earlier(slot, norm, k, l))
  }

  /** The word at `i` is the first of greatest probability among the words with its text. */
  ghost predicate LeadsItsText(slot: seq<Heard>, norm: Normalizer, i: nat)
    requires i < |slot|
  {
    forall j :: 0 <= j < |slot| && Key(norm, slot[j]) == Key(norm, slot[i]) ==>
      && slot[j].word.probability <= slot[i].word.probability
      && (j < i ==> slot[j].word.probability < slot[i].word.probability)
  }

  /** The word at `i` wins its slot: its text prevails over every text heard, and it leads that
      text's words. */
  ghost predicate Elected(slot: seq<Heard>, norm: Normalizer, i: nat) {
    && i < |slot|
    && (forall j :: 0 <= j < |slot| ==>
          Prevails(slot, norm, WeightIn(slot, norm), Key(norm, slot[i]), Key(norm, slot[j])))
    && LeadsItsText(slot, norm, i)
  }

  lemma NotBothEarlier(slot: seq<Heard>, norm: Normalizer, k: string, l: string)
    ensures !Earlier(slot, norm, k, l) || !Earlier(slot, norm, l, k)
  {
  }

  lemma ElectionIsUnique(slot: seq<Heard>, norm: Normalizer, i: nat, j: nat)
    requires Elected(slot, norm, i) && Elected(slot, norm, j)
    ensures i == j
  {
    NotBothEarlier(slot, norm, Key(norm, slot[i]), Key(norm, slot[j]));
  }

  lemma {:induction false} SubsetSize(a: set<nat>, b: set<nat>)
    requires a <= b
    ensures |a| <= |b|
  {
    if a != {} {
      var x :| x in a;
      SubsetSize(a - {x}, b - {x});
    }
  }

  lemma QuorumIsTwoPasses(slot: seq<Heard>)
    ensures Quorum(slot) <==> |set h | h in slot :: h.pass| >= 2
  {
    var passes := set h | h in slot :: h.pass;
    if Quorum(slot) {
      var i, j :| 0 <= i < j < |slot| && slot[i].pass != slot[j].pass;
      assert {slot[i].pass, slot[j].pass} <= passes;
      SubsetSize({slot[i].pass, slot[j].pass}, passes);
    } else if slot != [] {
      assert passes == {slot[0].pass};
    }
  }

  /** Where the voter at `j` sits in its text's ballot. */
  lemma {:induction false} BallotPosition(slot: seq<Heard>, norm: Normalizer, k: string, j: nat)
    requires j < |slot| && Key(norm, slot[j]) == k
    ensures |Ballot(slot[..j], norm, k)| < |Ballot(slot, norm, k)|
    ensures Ballot(slot, norm, k)[|Ballot(slot[..j], norm, k)|] == slot[j]
  {
    if j == |slot| - 1 {
      assert slot[..j] == Init(slot);
    } else {
      BallotPosition(Init(slot), norm, k, j);
      assert Init(slot)[..j] == slot[..j];
    }
  }

  /** Which voter sits at position `p` of a ballot. */
  lemma {:induction false} BallotVoter(slot: seq<Heard>, norm: Normalizer, k: string, p: nat) returns (j: nat)
    requires p < |Ballot(slot, norm, k)|
    ensures j < |slot| && Key(norm, slot[j]) == k && slot[j] == Ballot(slot, norm, k)[p]
    ensures |Ballot(slot[..j], norm, k)| == p
  {
    if p == |Ballot(Init(slot), norm, k)| {
      j := |slot| - 1;
      assert slot[..j] == Init(slot);
    } else {
      j := BallotVoter(Init(slot), norm, k, p);
      assert Init(slot)[..j] == slot[..j];
    }
  }

  // ----- the code of the vote, and why it elects

  /** The texts voted for, in order of first vote. */
  function KeysOf(slot: seq<Heard>, norm: Normalizer): seq<string> {
    if slot == [] then []
    else
      var keys, k := KeysOf(Init(slot), norm), Key(norm, Last(slot));
      if k in keys then keys else keys + [k]
  }

  /** The ballots by text. */
  function GroupsOf(slot: seq<Heard>, norm: Normalizer): map<string, seq<Heard>> {
    if slot == [] then map[]
    else
      var groups, k := GroupsOf(Init(slot), norm), Key(norm, Last(slot));
      groups[k := (if k in groups then groups[k] else []) + [Last(slot)]]
  }

  lemma {:induction false} GroupsAreBallots(slot: seq<Heard>, norm: Normalizer, k: string)
    ensures k in KeysOf(slot, norm) <==> Ballot(slot, norm, k) != []
    ensures k in GroupsOf(slot, norm) <==> Ballot(slot, norm, k) != []
    ensures k in GroupsOf(slot, norm) ==> GroupsOf(slot, norm)[k] == Ballot(slot, norm, k)
  {
    if slot != [] {
      GroupsAreBallots(Init(slot), norm, k);
      GroupsAreBallots(Init(slot), norm, Key(norm, Last(slot)));
    }
  }

  lemma EarlierPersists(slot: seq<Heard>, norm: Normalizer, k: string, l: string)
    requires slot != [] && Earlier(Init(slot), norm, k, l)
    ensures Earlier(slot, norm, k, l)
  {
    var i :| 0 <= i < |slot| - 1 && Key(norm, slot[i]) == k
      && forall j :: 0 <= j <= i ==> Key(norm, Init(slot)[j]) != l;
    forall j | 0 <= j <= i
      ensures Key(norm, slot[j]) != l
    {
      assert slot[j] == Init(slot)[j];
    }
  }

  lemma {:induction false} KeysAreInOrder(slot: seq<Heard>, norm: Normalizer, a: nat, b: nat)
    requires a < b < |KeysOf(slot, norm)|
    ensures Earlier(slot, norm, KeysOf(slot, norm)[a], KeysOf(slot, norm)[b])
  {
    var keys := KeysOf(Init(slot), norm);
    if b < |keys| {
      KeysAreInOrder(Init(slot), norm, a, b);
      EarlierPersists(slot, norm, keys[a], keys[b]);
    } else {
      var k, l := keys[a], Key(norm, Last(slot));
      GroupsAreBallots(Init(slot), norm, k);
      GroupsAreBallots(Init(slot), norm, l);
      var i := BallotVoter(Init(slot), norm, k, 0);
      forall j | 0 <= j <= i
        ensures Key(norm, slot[j]) != l
      {
        if Key(norm, slot[j]) == l {
          BallotPosition(Init(slot), norm, l, j);
        }
      }
      assert slot[i] == Init(slot)[i];
    }
  }

  /** The first of the heaviest keys. */
  function BestKey(keys: seq<string>, weight: string -> Weight): (best: string)
    requires keys != []
    ensures best in keys
  {
    if |keys| == 1 then keys[0]
    else
      var best := BestKey(Init(keys), weight);
      if weight(Last(keys)).Exceeds(weight(best)) then Last(keys) else best
  }

  lemma {:induction false} BestKeyIsFirstHeaviest(keys: seq<string>, weight: string -> Weight) returns (m: nat)
    requires keys != []
    ensures m < |keys| && keys[m] == BestKey(keys, weight)
    ensures forall a :: 0 <= a < |keys| ==> !weight(keys[a]).Exceeds(weight(keys[m]))
    ensures forall a :: 0 <= a < m ==> weight(keys[m]).Exceeds(weight(keys[a]))
  {
    if |keys| == 1 {
      m := 0;
    } else {
      m := BestKeyIsFirstHeaviest(Init(keys), weight);
      if weight(Last(keys)).Exceeds(weight(keys[m])) {
        m := |keys| - 1;
      }
    }
  }

  /** The first position of greatest probability. */
  function TopVoter(ballot: seq<Heard>): (t: nat)
    requires ballot != []
    ensures t < |ballot|
    ensures forall p :: 0 <= p < |ballot| ==> ballot[p].word.probability <= ballot[t].word.probability
    ensures forall p :: 0 <= p < t ==> ballot[p].word.probability < ballot[t].word.probability
  {
    if |ballot| == 1 then 0
    else
      var t := TopVoter(Init(ballot));
      if Last(ballot).word.probability > ballot[t].word.probability then |ballot| - 1 else t
  }

  method MostProbable(ballot: seq<Heard>) returns (top: nat)
    requires ballot != []
    ensures top == TopVoter(ballot)
  {
    top := 0;
    for p := 1 to |ballot|
      invariant top == TopVoter(ballot[..p])
    {
      assert Init(ballot[..p + 1]) == ballot[..p];
      if ballot[p].word.probability > ballot[top].word.probability {
        top := p;
      }
    }
    assert ballot[..|ballot|] == ballot;
  }

  method GroupByText(slot: seq<Heard>, norm: Normalizer) returns (keys: seq<string>, groups: map<string, seq<Heard>>)
    ensures keys == KeysOf(slot, norm) && groups == GroupsOf(slot, norm)
  {
    keys, groups := [], map[];
    for i := 0 to |slot|
      invariant keys == KeysOf(slot[..i], norm) && groups == GroupsOf(slot[..i], norm)
    {
      assert Init(slot[..i + 1]) == slot[..i];
      var k := Key(norm, slot[i]);
      GroupsAreBallots(slot[..i], norm, k);
      if k !in groups {
        keys, groups := keys + [k], groups[k := []];
      }
      groups := groups[k := groups[k] + [slot[i]]];
    }
    assert slot[..|slot|] == slot;
  }

  method LargestGroup(keys: seq<string>, groups: map<string, seq<Heard>>, ghost weight: string -> Weight)
    returns (best: string)
    requires keys != [] && forall k :: k in keys ==> k in groups && WeightOf(groups[k]) == weight(k)
    ensures best == BestKey(keys, weight)
  {
    best := keys[0];
    for i := 1 to |keys|
      invariant best == BestKey(keys[..i], weight)
    {
      assert Init(keys[..i + 1]) == keys[..i];
      if WeightOf(groups[keys[i]]).Exceeds(WeightOf(groups[best])) {
        best := keys[i];
      }
    }
    assert keys[..|keys|] == keys;
  }

  lemma GroupsWeigh(slot: seq<Heard>, norm: Normalizer, weight: string -> Weight)
    requires slot != [] && weight == WeightIn(slot, norm)
    ensures var keys, groups := KeysOf(slot, norm), GroupsOf(slot, norm);
      keys != [] && forall k :: k in keys ==> k in groups && WeightOf(groups[k]) == weight(k)
  {
    forall k | k in KeysOf(slot, norm)
      ensures k in GroupsOf(slot, norm) && WeightOf(GroupsOf(slot, norm)[k]) == weight(k)
    {
      GroupsAreBallots(slot, norm, k);
    }
  }

  lemma TopVoterLeads(slot: seq<Heard>, norm: Normalizer, k: string) returns (i: nat)
    requires Ballot(slot, norm, k) != []
    ensures i < |slot| && Key(norm, slot[i]) == k && LeadsItsText(slot, norm, i)
    ensures slot[i] == Ballot(slot, norm, k)[TopVoter(Ballot(slot, norm, k))]
  {
    var ballot := Ballot(slot, norm, k);
    i := BallotVoter(slot, norm, k, TopVoter(ballot));
    forall j | 0 <= j < |slot| && Key(norm, slot[j]) == k
      ensures slot[j].word.probability <= slot[i].word.probability
      ensures j < i ==> slot[j].word.probability < slot[i].word.probability
    {
      BallotPosition(slot, norm, k, j);
      if j < i {
        BallotPosition(slot[..i], norm, k, j);
        assert slot[..i][..j] == slot[..j];
      }
    }
  }

  lemma FirstHeaviestPrevails(slot: seq<Heard>, norm: Normalizer, weight: string -> Weight, m: nat, j: nat)
    requires m < |KeysOf(slot, norm)| && j < |slot|
    requires var keys := KeysOf(slot, norm);
      && (forall a :: 0 <= a < |keys| ==> !weight(keys[a]).Exceeds(weight(keys[m])))
      && (forall a :: 0 <= a < m ==> weight(keys[m]).Exceeds(weight(keys[a])))
    ensures Prevails(slot, norm, weight, KeysOf(slot, norm)[m], Key(norm, slot[j]))
  {
    var keys, l := KeysOf(slot, norm), Key(norm, slot[j]);
    BallotPosition(slot, norm, l, j);
    GroupsAreBallots(slot, norm, l);
    var a :| 0 <= a < |keys| && keys[a] == l;
    if m < a {
      KeysAreInOrder(slot, norm, m, a);
    }
  }

  lemma CodeElects(slot: seq<Heard>, norm: Normalizer, weight: string -> Weight) returns (i: nat)
    requires slot != [] && weight == WeightIn(slot, norm) && KeysOf(slot, norm) != []
    ensures Elected(slot, norm, i)
    ensures var groups, best := GroupsOf(slot, norm), BestKey(KeysOf(slot, norm), weight);
      best in groups && groups[best] != [] && slot[i] == groups[best][TopVoter(groups[best])]
  {
    var keys := KeysOf(slot, norm);
    var m := BestKeyIsFirstHeaviest(keys, weight);
    var k := keys[m];
    GroupsAreBallots(slot, norm, k);
    i := TopVoterLeads(slot, norm, k);
    forall j | 0 <= j < |slot|
      ensures Prevails(slot, norm, weight, k, Key(norm, slot[j]))
    {
      FirstHeaviestPrevails(slot, norm, weight, m, j);
    }
  }

  lemma ElectionHasWinner(slot: seq<Heard>, norm: Normalizer)
    requires slot != []
    ensures exists i: nat :: Elected(slot, norm, i)
  {
    GroupsWeigh(slot, norm, WeightIn(slot, norm));
    var i := CodeElects(slot, norm, WeightIn(slot, norm));
  }

  /** What voting makes of a slot: nothing without a quorum, else the elected word. */
  ghost function Verdict(slot: seq<Heard>, norm: Normalizer): (w: Option<Heard>)
    ensures w.Some? <==> Quorum(slot)
    ensures w.Some? ==> w.value in slot && exists i: nat :: Elected(slot, norm, i) && slot[i] == w.value
  {
    if Quorum(slot) then
      ElectionHasWinner(slot, norm);
      var i: nat :| Elected(slot, norm, i);
      Some(slot[i])
    else None
  }

  lemma ElectedIsVerdict(slot: seq<Heard>, norm: Normalizer, i: nat)
    requires Quorum(slot) && Elected(slot, norm, i)
    ensures Verdict(slot, norm) == Some(slot[i])
  {
    var j: nat :| Elected(slot, norm, j) && slot[j] == Verdict(slot, norm).value;
    ElectionIsUnique(slot, norm, i, j);
  }

  method VoteSlot(slot: seq<Heard>, norm: Normalizer) returns (winner: Option<Heard>)
    ensures winner == Verdict(slot, norm)
  {
    var contributing := set h | h in slot :: h.pass;
    QuorumIsTwoPasses(slot);
    if |contributing| < 2 {
      return None;
    }
    var keys, groups := GroupByText(slot, norm);
    ghost var weight := WeightIn(slot, norm);
    GroupsWeigh(slot, norm, weight);
    var best := LargestGroup(keys, groups, weight);
    ghost var i := CodeElects(slot, norm, weight);
    var top := MostProbable(groups[best]);
    ElectedIsVerdict(slot, norm, i);
    winner := Some(groups[best][top]);
  }

  // ----- ties: the code sums probabilities, its documentation speaks of the single best word

  lemma {:induction false} OnlyVoter(slot: seq<Heard>, norm: Normalizer, j: nat)
    requires j < |slot|
    requires forall i :: 0 <= i < |slot| && i != j ==> Key(norm, slot[i]) != Key(norm, slot[j])
    ensures Ballot(slot, norm, Key(norm, slot[j])) == [slot[j]]
  {
    if j < |slot| - 1 {
      OnlyVoter(Init(slot), norm, j);
    } else {
      if Ballot(Init(slot), norm, Key(norm, slot[j])) != [] {
        var i := BallotVoter(Init(slot), norm, Key(norm, slot[j]), 0);
      }
    }
  }

  /** No text has more votes than the text of word `j`. */
  ghost predicate Tied(slot: seq<Heard>, norm: Normalizer, j: nat) {
    && j < |slot|
    && forall l :: 0 <= l < |slot| ==>
         WeightIn(slot, norm)(Key(norm, slot[l])).votes <= WeightIn(slot, norm)(Key(norm, slot[j])).votes
  }

  /** The documented rule: a majority, and between tied texts the single most probable word. */
  ghost predicate Documented(slot: seq<Heard>, norm: Normalizer, i: nat) {
    Tied(slot, norm, i) && forall j: nat :: Tied(slot, norm, j) ==> slot[j].word.probability <= slot[i].word.probability
  }

  /** Among the tied texts, the text of word `j` has the greatest sum of probabilities, and is heard
      before any other with the same sum. */
  ghost predicate HasTheSum(slot: seq<Heard>, norm: Normalizer, j: nat)
    requires j < |slot|
  {
    forall l: nat :: Tied(slot, norm, l) ==>
      var k, other := Key(norm, slot[j]), Key(norm, slot[l]);
      var sum, otherSum := WeightIn(slot, norm)(k).mass, WeightIn(slot, norm)(other).mass;
      otherSum <= sum && (other == k || otherSum < sum || Earlier(slot, norm, k, other))
  }

  lemma ElectedIsTied(slot: seq<Heard>, norm: Normalizer, i: nat)
    requires Elected(slot, norm, i)
    ensures Tied(slot, norm, i) && HasTheSum(slot, norm, i)
  {
    var weight, k := WeightIn(slot, norm), Key(norm, slot[i]);
    forall l | 0 <= l < |slot|
      ensures weight(Key(norm, slot[l])).votes <= weight(k).votes
    {
      assert Prevails(slot, norm, weight, k, Key(norm, slot[l]));
    }
    forall l: nat | Tied(slot, norm, l)
      ensures weight(Key(norm, slot[l])).mass <= weight(k).mass
      ensures Key(norm, slot[l]) == k || weight(Key(norm, slot[l])).mass < weight(k).mass
              || Earlier(slot, norm, k, Key(norm, slot[l]))
    {
      assert Prevails(slot, norm, weight, k, Key(norm, slot[l]));
    }
  }

  lemma TheSumPrevails(slot: seq<Heard>, norm: Normalizer, i: nat, j: nat)
    requires Elected(slot, norm, i) && Tied(slot, norm, j) && HasTheSum(slot, norm, j)
    ensures Key(norm, slot[j]) == Key(norm, slot[i])
  {
    var weight, k, l := WeightIn(slot, norm), Key(norm, slot[j]), Key(norm, slot[i]);
    assert Prevails(slot, norm, weight, l, k);
    ElectedIsTied(slot, norm, i);
    NotBothEarlier(slot, norm, k, l);
  }

  /** The elected word obeys the documented rule exactly if the text of some most probable tied word
      also has the greatest sum of probabilities, first heard deciding equal sums. */
  lemma DocumentedRuleExactlyWhen(slot: seq<Heard>, norm: Normalizer, i: nat)
    requires Elected(slot, norm, i)
    ensures Documented(slot, norm, i) <==> exists j: nat :: Documented(slot, norm, j) && HasTheSum(slot, norm, j)
  {
    ElectedIsTied(slot, norm, i);
    if j: nat :| Documented(slot, norm, j) && HasTheSum(slot, norm, j) {
      TheSumPrevails(slot, norm, i, j);
      assert slot[j].word.probability <= slot[i].word.probability;
    }
  }

  /** The word at `i` is the first of greatest probability in the slot. */
  ghost predicate MostProbableOfAll(slot: seq<Heard>, i: nat) {
    && i < |slot|
    && forall j :: 0 <= j < |slot| ==>
         slot[j].word.probability <= slot[i].word.probability
         && (j < i ==> slot[j].word.probability < slot[i].word.probability)
  }

  lemma LoneVoters(slot: seq<Heard>, norm: Normalizer, e: nat, j: nat)
    requires Elected(slot, norm, e) && j < |slot|
    requires forall j, l :: 0 <= j < l < |slot| ==> Key(norm, slot[j]) != Key(norm, slot[l])
    ensures slot[j].word.probability <= slot[e].word.probability
    ensures j < e ==> slot[j].word.probability < slot[e].word.probability
  {
    OnlyVoter(slot, norm, e);
    OnlyVoter(slot, norm, j);
    assert Prevails(slot, norm, WeightIn(slot, norm), Key(norm, slot[e]), Key(norm, slot[j]));
    assert Mass([slot[e]]) == slot[e].word.probability && Mass([slot[j]]) == slot[j].word.probability;
  }

  /** When no two words agree, the elected word is the first of greatest probability and no other. */
  lemma DisagreementElectsMostProbable(slot: seq<Heard>, norm: Normalizer, i: nat)
    requires slot != []
    requires forall j, l :: 0 <= j < l < |slot| ==> Key(norm, slot[j]) != Key(norm, slot[l])
    ensures Elected(slot, norm, i) <==> MostProbableOfAll(slot, i)
  {
    ElectionHasWinner(slot, norm);
    var e: nat :| Elected(slot, norm, e);
    forall j: nat | j < |slot|
      ensures slot[j].word.probability <= slot[e].word.probability
      ensures j < e ==> slot[j].word.probability < slot[e].word.probability
    {
      LoneVoters(slot, norm, e, j);
    }
    if Elected(slot, norm, i) {
      ElectionIsUnique(slot, norm, e, i);
    }
  }

  lemma BallotSnoc(slot: seq<Heard>, h: Heard, norm: Normalizer, k: string)
    ensures Ballot(slot + [h], norm, k) == Ballot(slot, norm, k) + if Key(norm, h) == k then [h] else []
  {
    assert Init(slot + [h]) == slot;
  }

  lemma MassSnoc(ballot: seq<Heard>, h: Heard)
    ensures Mass(ballot + [h]) == Mass(ballot) + h.word.probability
  {
    assert Init(ballot + [h]) == ballot;
  }

  lemma BallotOfFour(norm: Normalizer, a: Heard, b: Heard, c: Heard, d: Heard, k: string)
    ensures Ballot([a, b, c, d], norm, k)
            == (if Key(norm, a) == k then [a] else []) + (if Key(norm, b) == k then [b] else [])
               + (if Key(norm, c) == k then [c] else []) + (if Key(norm, d) == k then [d] else [])
  {
    BallotSnoc([], a, norm, k);
    BallotSnoc([] + [a], b, norm, k);
    BallotSnoc([] + [a] + [b], c, norm, k);
    BallotSnoc([] + [a] + [b] + [c], d, norm, k);
    assert [a, b, c, d] == [] + [a] + [b] + [c] + [d];
  }

  lemma MassOfTwo(a: Heard, b: Heard)
    ensures WeightOf([a, b]) == Weight(2, a.word.probability + b.word.probability)
  {
    MassSnoc([], a);
    MassSnoc([] + [a], b);
    assert [a, b] == [] + [a] + [b];
  }

  /** Two words with one text against two with another. */
  lemma TwoAgainstTwo(norm: Normalizer, a: Heard, a': Heard, b: Heard, b': Heard)
    requires Key(norm, a) == Key(norm, a') != Key(norm, b) == Key(norm, b')
    ensures var weight := WeightIn([a, a', b, b'], norm);
      && weight(Key(norm, a)) == Weight(2, a.word.probability + a'.word.probability)
      && weight(Key(norm, b)) == Weight(2, b.word.probability + b'.word.probability)
  {
    var slot := [a, a', b, b'];
    assert Ballot(slot, norm, Key(norm, a)) == [a, a'] by {
      BallotOfFour(norm, a, a', b, b', Key(norm, a));
    }
    assert Ballot(slot, norm, Key(norm, b)) == [b, b'] by {
      BallotOfFour(norm, a, a', b, b', Key(norm, b));
    }
    MassOfTwo(a, a');
    MassOfTwo(b, b');
  }

  /** Between texts with equally many votes, though, the greater sum wins, even over a text with
      the single most probable word. */
  lemma TieGoesToTheSum(norm: Normalizer) returns (slot: seq<Heard>, i: nat, j: nat)
    requires norm("a") != norm("b")
    ensures Quorum(slot) && Elected(slot, norm, i) && j < |slot| && slot[j].word.probability > slot[i].word.probability
    ensures Tied(slot, norm, j) && !Documented(slot, norm, i)
  {
    var a, b := Heard(Word(0.0, 1.0, "a", 0.5), 0), Heard(Word(0.0, 1.0, "b", 0.9), 2);
    var a', b' := a.(pass := 1), Heard(Word(0.0, 1.0, "b", 0.05), 3);
    slot, i, j := [a, a', b, b'], 0, 2;
    TwoAgainstTwo(norm, a, a', b, b');
    var weight := WeightIn(slot, norm);
    assert forall l :: 0 <= l < |slot| ==> Key(norm, slot[l]) == norm("a") || Key(norm, slot[l]) == norm("b");
    assert weight(norm("a")) == Weight(2, 1.0) && weight(norm("b")) == Weight(2, 0.95);
    assert slot[0].pass != slot[1].pass;
    assert LeadsItsText(slot, norm, 0);
    assert Tied(slot, norm, j);
  }
}
