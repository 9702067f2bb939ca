/** Levenshtein distance over token sequences: edit scripts, the recurrence that fills the
    dynamic-programming table, the backtrace, and the metric laws.

    The recurrence takes the diagonal without a `min` when the last tokens agree, so that it
    computes the cheapest script is a theorem (`AlignmentIsOptimal` and `NoScriptIsCheaper`). */
module EditDistance {
  import opened Sequences

  datatype Edit<T> =
    | Keep(x: T)
    | Substitute(from: T, to: T)
    | Delete(x: T)
    | Insert(y: T)
  {
    function Consumed(): seq<T> {
      match this
      case Keep(x) => [x]
      case Substitute(from, _) => [from]
      case Delete(x) => [x]
      case Insert(_) => []
    }

    function Produced(): seq<T> {
      match this
      case Keep(x) => [x]
      case Substitute(_, to) => [to]
      case Delete(_) => []
      case Insert(y) => [y]
    }

    function Cost(): nat {
      if Keep? then 0 else 1
    }
  }

  /** A script is a left-to-right list of edits; all functions on it peel off the last edit. */
  type Script<T> = seq<Edit<T>>

  function Source<T>(s: Script<T>): seq<T> {
    if s == [] then [] else Source(Init(s)) + Last(s).Consumed()
  }

  function Target<T>(s: Script<T>): seq<T> {
    if s == [] then [] else Target(Init(s)) + Last(s).Produced()
  }

  function Cost<T>(s: Script<T>): nat {
    if s == [] then 0 else Cost(Init(s)) + Last(s).Cost()
  }

  ghost predicate Transforms<T>(s: Script<T>, ref: seq<T>, hyp: seq<T>) {
    Source(s) == ref && Target(s) == hyp
  }

  lemma Snoc<T>(s: Script<T>, e: Edit<T>)
    ensures Source(s + [e]) == Source(s) + e.Consumed()
    ensures Target(s + [e]) == Target(s) + e.Produced()
    ensures Cost(s + [e]) == Cost(s) + e.Cost()
  {
    assert Init(s + [e]) == s;
  }

  function Min(a: nat, b: nat): nat {
    if a <= b then a else b
  }

  /** The value of table cell (|ref|, |hyp|). */
  function Distance<T(==)>(ref: seq<T>, hyp: seq<T>): nat
    decreases |ref| + |hyp|
  {
    if ref == [] then |hyp|
    else if hyp == [] then |ref|
    else if Last(ref) == Last(hyp) then Distance(Init(ref), Init(hyp))
    else 1 + Min(Min(Distance(Init(ref), Init(hyp)), Distance(Init(ref), hyp)), Distance(ref, Init(hyp)))
  }

  // ----- the recurrence is the cheapest script

  /** Neighbouring cells of the table differ by at most one. */
  lemma {:induction false} AdjacentCells<T>(ref: seq<T>, hyp: seq<T>)
    ensures ref != [] ==> Distance(Init(ref), hyp) <= Distance(ref, hyp) + 1
    ensures ref != [] ==> Distance(ref, hyp) <= Distance(Init(ref), hyp) + 1
    ensures hyp != [] ==> Distance(ref, Init(hyp)) <= Distance(ref, hyp) + 1
    ensures hyp != [] ==> Distance(ref, hyp) <= Distance(ref, Init(hyp)) + 1
    decreases |ref| + |hyp|
  {
    if ref != [] && hyp != [] {
      AdjacentCells(Init(ref), Init(hyp));
      AdjacentCells(Init(ref), hyp);
      AdjacentCells(ref, Init(hyp));
    }
  }

  /** One more edit raises the distance by at most its cost. */
  lemma OneMoreEdit<T>(ref: seq<T>, hyp: seq<T>, e: Edit<T>)
    ensures Distance(ref + e.Consumed(), hyp + e.Produced()) <= Distance(ref, hyp) + e.Cost()
  {
    var ref', hyp' := ref + e.Consumed(), hyp + e.Produced();
    AdjacentCells(ref', hyp');
    match e
    case Delete(_) => assert Init(ref') == ref && hyp' == hyp;
    case Insert(_) => assert ref' == ref && Init(hyp') == hyp;
    case _ => assert Init(ref') == ref && Init(hyp') == hyp;
  }

  /** No script that turns `ref` into `hyp` is cheaper than the table says. */
  lemma {:induction false} NoScriptIsCheaper<T>(s: Script<T>)
    ensures Distance(Source(s), Target(s)) <= Cost(s)
  {
    if s != [] {
      NoScriptIsCheaper(Init(s));
      OneMoreEdit(Source(Init(s)), Target(Init(s)), Last(s));
    }
  }

  /** The script the backtrace walks, written left to right. Its four branches are tried in
      the order the backtrace tries them; that the last one is only reached with a nonempty
      hypothesis is what makes this function well formed. */
  function Alignment<T(==)>(ref: seq<T>, hyp: seq<T>): Script<T>
    decreases |ref| + |hyp|
  {
    if ref == [] && hyp == [] then []
    else if ref != [] && hyp != [] && Last(ref) == Last(hyp) then
      Alignment(Init(ref), Init(hyp)) + [Keep(Last(ref))]
    else if ref != [] && hyp != [] && Distance(ref, hyp) == Distance(Init(ref), Init(hyp)) + 1 then
      Alignment(Init(ref), Init(hyp)) + [Substitute(Last(ref), Last(hyp))]
    else if ref != [] && Distance(ref, hyp) == Distance(Init(ref), hyp) + 1 then
      Alignment(Init(ref), hyp) + [Delete(Last(ref))]
    else
      Alignment(ref, Init(hyp)) + [Insert(Last(hyp))]
  }

  /** `s` is a cheapest script from `ref` to `hyp`, as far as the table can tell. */
  ghost predicate Optimal<T>(s: Script<T>, ref: seq<T>, hyp: seq<T>) {
    Transforms(s, ref, hyp) && Cost(s) == Distance(ref, hyp)
  }

  lemma OptimalSnoc<T>(s: Script<T>, e: Edit<T>, ref: seq<T>, hyp: seq<T>, ref': seq<T>, hyp': seq<T>)
    requires Optimal(s, ref, hyp)
    requires ref' == ref + e.Consumed() && hyp' == hyp + e.Produced()
    requires Distance(ref', hyp') == Distance(ref, hyp) + e.Cost()
    ensures Optimal(s + [e], ref', hyp')
  {
    Snoc(s, e);
  }

  lemma SplitLast<T>(s: seq<T>)
    requires s != []
    ensures s == Init(s) + [Last(s)] && s == s + []
  {
  }

  /** When neither the diagonal nor the cell above explains the value, the cell to the left does. */
  lemma RemainingBranch<T>(ref: seq<T>, hyp: seq<T>)
    requires ref != [] || hyp != []
    requires ref != [] && hyp != [] ==> Last(ref) != Last(hyp)
    requires ref != [] && hyp != [] ==> Distance(ref, hyp) != Distance(Init(ref), Init(hyp)) + 1
    requires ref != [] ==> Distance(ref, hyp) != Distance(Init(ref), hyp) + 1
    ensures hyp != [] && Distance(ref, hyp) == Distance(ref, Init(hyp)) + 1
  {
  }

  lemma {:induction false} AlignmentIsOptimal<T>(ref: seq<T>, hyp: seq<T>)
    ensures Optimal(Alignment(ref, hyp), ref, hyp)
    decreases |ref| + |hyp|
  {
    if ref != [] { SplitLast(ref); }
    if hyp != [] { SplitLast(hyp); }
    if ref == [] && hyp == [] {
    } else if ref != [] && hyp != [] && Last(ref) == Last(hyp) {
      AlignmentIsOptimal(Init(ref), Init(hyp));
      OptimalSnoc(Alignment(Init(ref), Init(hyp)), Keep(Last(ref)), Init(ref), Init(hyp), ref, hyp);
    } else if ref != [] && hyp != [] && Distance(ref, hyp) == Distance(Init(ref), Init(hyp)) + 1 {
      AlignmentIsOptimal(Init(ref), Init(hyp));
      OptimalSnoc(Alignment(Init(ref), Init(hyp)), Substitute(Last(ref), Last(hyp)), Init(ref), Init(hyp), ref, hyp);
    } else if ref != [] && Distance(ref, hyp) == Distance(Init(ref), hyp) + 1 {
      AlignmentIsOptimal(Init(ref), hyp);
      OptimalSnoc(Alignment(Init(ref), hyp), Delete(Last(ref)), Init(ref), hyp, ref, hyp);
    } else {
      RemainingBranch(ref, hyp);
      AlignmentIsOptimal(ref, Init(hyp));
      OptimalSnoc(Alignment(ref, Init(hyp)), Insert(Last(hyp)), ref, Init(hyp), ref, hyp);
    }
  }

  /** `Distance` is exactly the cost of a cheapest script: attained, and a lower bound. */
  lemma DistanceIsMinimum<T>(ref: seq<T>, hyp: seq<T>)
    ensures exists s: Script<T> :: Transforms(s, ref, hyp) && Cost(s) == Distance(ref, hyp)
    ensures forall s: Script<T> :: Transforms(s, ref, hyp) ==> Distance(ref, hyp) <= Cost(s)
  {
    AlignmentIsOptimal(ref, hyp);
    forall s: Script<T> | Transforms(s, ref, hyp)
      ensures Distance(ref, hyp) <= Cost(s)
    {
      NoScriptIsCheaper(s);
    }
  }

  // ----- which of the cheapest scripts the backtrace picks

  /** How early an edit comes in the order Keep, Substitute, Delete, Insert. */
  function Rank<T>(e: Edit<T>): nat {
    match e
    case Keep(_) => 0
    case Substitute(_, _) => 1
    case Delete(_) => 2
    case Insert(_) => 3
  }

  /** Compared from their last edits on, `s` has the earlier edit where the two first differ. */
  ghost predicate Precedes<T>(s: Script<T>, t: Script<T>) {
    s != [] && t != []
    && (Rank(Last(s)) < Rank(Last(t)) || (Rank(Last(s)) == Rank(Last(t)) && Precedes(Init(s), Init(t))))
  }

  lemma {:induction false} PrecedesOneWay<T>(s: Script<T>, t: Script<T>)
    requires Precedes(s, t)
    ensures !Precedes(t, s)
  {
    if Rank(Last(s)) == Rank(Last(t)) {
      PrecedesOneWay(Init(s), Init(t));
    }
  }

  /** What the last edit of a cheapest script says of the table: its kind and the two texts fix the
      edit and the cell it comes from, and that cell explains the value. */
  lemma LastOfOptimal<T>(s: Script<T>, ref: seq<T>, hyp: seq<T>)
    requires Optimal(s, ref, hyp) && s != []
    ensures var e, before := Last(s), Init(s);
      && (!e.Insert? ==> ref != []) && (!e.Delete? ==> hyp != [])
      && (e.Keep? ==> Last(ref) == Last(hyp) == e.x)
      && (e.Substitute? ==> e == Substitute(Last(ref), Last(hyp)))
      && (e.Delete? ==> e == Delete(Last(ref))) && (e.Insert? ==> e == Insert(Last(hyp)))
      && var ref', hyp' := if e.Insert? then ref else Init(ref), if e.Delete? then hyp else Init(hyp);
         Optimal(before, ref', hyp') && Distance(ref, hyp) == Distance(ref', hyp') + e.Cost()
  {
    var e, before := Last(s), Init(s);
    assert ref == Source(before) + e.Consumed() && hyp == Target(before) + e.Produced();
    assert !e.Insert? ==> Init(ref) == Source(before);
    assert !e.Delete? ==> Init(hyp) == Target(before);
    NoScriptIsCheaper(before);
    OneMoreEdit(Source(before), Target(before), e);
  }

  lemma EmptyOptimal<T>(s: Script<T>, ref: seq<T>, hyp: seq<T>)
    requires Optimal(s, ref, hyp)
    ensures s == [] <==> ref == [] && hyp == []
  {
  }

  lemma AlignmentStep<T>(ref: seq<T>, hyp: seq<T>)
    requires ref != [] || hyp != []
    ensures var a := Alignment(ref, hyp);
      a != [] && (Last(a).Insert? || ref != []) && (Last(a).Delete? || hyp != [])
      && Init(a) == Alignment(if Last(a).Insert? then ref else Init(ref), if Last(a).Delete? then hyp else Init(hyp))
  {
  }

  /** No cheapest script ends with an earlier kind of edit than the one picked. */
  lemma NoEarlierEdit<T>(s: Script<T>, ref: seq<T>, hyp: seq<T>)
    requires Optimal(s, ref, hyp) && s != [] && Alignment(ref, hyp) != []
    ensures Rank(Last(Alignment(ref, hyp))) <= Rank(Last(s))
    ensures Rank(Last(Alignment(ref, hyp))) == Rank(Last(s)) ==> Last(Alignment(ref, hyp)) == Last(s)
  {
    LastOfOptimal(s, ref, hyp);
    AlignmentIsOptimal(ref, hyp);
    LastOfOptimal(Alignment(ref, hyp), ref, hyp);
  }

  /** Of all cheapest scripts, the backtrace picks the first, compared from their last edits on. */
  lemma {:induction false} AlignmentIsFirst<T>(s: Script<T>, ref: seq<T>, hyp: seq<T>)
    requires Optimal(s, ref, hyp)
    ensures s == Alignment(ref, hyp) || Precedes(Alignment(ref, hyp), s)
    decreases |ref| + |hyp|
  {
    AlignmentIsOptimal(ref, hyp);
    EmptyOptimal(s, ref, hyp);
    EmptyOptimal(Alignment(ref, hyp), ref, hyp);
    if s != [] {
      NoEarlierEdit(s, ref, hyp);
      if Last(s) == Last(Alignment(ref, hyp)) {
        LastOfOptimal(s, ref, hyp);
        AlignmentStep(ref, hyp);
        var e := Last(s);
        AlignmentIsFirst(Init(s), if e.Insert? then ref else Init(ref), if e.Delete? then hyp else Init(hyp));
        SplitLast(s);
        SplitLast(Alignment(ref, hyp));
      }
    }
  }

  /** So the script it picks is the one cheapest script that no other precedes. */
  lemma PickedExactlyWhen<T>(s: Script<T>, ref: seq<T>, hyp: seq<T>)
    ensures s == Alignment(ref, hyp)
            <==> Optimal(s, ref, hyp) && forall t: Script<T> :: Optimal(t, ref, hyp) ==> !Precedes(t, s)
  {
    AlignmentIsOptimal(ref, hyp);
    if s == Alignment(ref, hyp) {
      forall t: Script<T> | Optimal(t, ref, hyp)
        ensures !Precedes(t, s)
      {
        AlignmentIsFirst(t, ref, hyp);
        if Precedes(t, s) { PrecedesOneWay(t, s); }
      }
    } else if Optimal(s, ref, hyp) {
      AlignmentIsFirst(s, ref, hyp);
    }
  }

  // ----- operation counts of a script

  datatype Tally = Tally(substitutions: nat, deletions: nat, insertions: nat)
  {
    function Count<T>(e: Edit<T>): Tally {
      match e
      case Keep(_) => this
      case Substitute(_, _) => this.(substitutions := substitutions + 1)
      case Delete(_) => this.(deletions := deletions + 1)
      case Insert(_) => this.(insertions := insertions + 1)
    }

    function Plus(s: nat, d: nat, i: nat): Tally {
      Tally(substitutions + s, deletions + d, insertions + i)
    }
  }

  function TallyOf<T>(s: Script<T>): Tally {
    if s == [] then Tally(0, 0, 0) else TallyOf(Init(s)).Count(Last(s))
  }

  /** The three counts add up to the cost, and both sides see the same number of kept or
      substituted tokens. */
  lemma {:induction false} TallyBalances<T>(s: Script<T>)
    ensures var t := TallyOf(s);
      && t.substitutions + t.deletions + t.insertions == Cost(s)
      && |Source(s)| - t.deletions == |Target(s)| - t.insertions
  {
    if s != [] {
      TallyBalances(Init(s));
    }
  }

  // ----- metric laws, by transforming scripts

  function Inverse<T>(s: Script<T>): (r: Script<T>)
    ensures Source(r) == Target(s) && Target(r) == Source(s)
    ensures Cost(r) == Cost(s)
  {
    if s == [] then []
    else
      var e := match Last(s)
        case Keep(x) => Keep(x)
        case Substitute(from, to) => Substitute(to, from)
        case Delete(x) => Insert(x)
        case Insert(y) => Delete(y);
      Snoc(Inverse(Init(s)), e);
      Inverse(Init(s)) + [e]
  }

  /** Two edits meeting at one token of the middle text: what is left of them end to end. An
      insertion followed by a deletion of the same token leaves nothing. */
  function Fuse<T>(first: Edit<T>, second: Edit<T>): Script<T>
    requires !first.Delete? && !second.Insert?
  {
    match (first, second)
    case (Insert(_), Delete(_)) => []
    case (Insert(_), Keep(y)) => [Insert(y)]
    case (Insert(_), Substitute(_, y)) => [Insert(y)]
    case (Keep(x), Keep(_)) => [Keep(x)]
    case (Keep(x), Substitute(_, y)) => [Substitute(x, y)]
    case (Keep(x), Delete(_)) => [Delete(x)]
    case (Substitute(x, _), Keep(y)) => [Substitute(x, y)]
    case (Substitute(x, _), Substitute(_, y)) => [Substitute(x, y)]
    case (Substitute(x, _), Delete(_)) => [Delete(x)]
  }

  lemma LastTokens<T>(s: Script<T>, t: Script<T>)
    requires s != [] && t != [] && !Last(s).Delete? && !Last(t).Insert?
    requires Target(s) == Source(t)
    ensures Target(Init(s)) == Source(Init(t))
    ensures Last(s).Produced() == Last(t).Consumed()
  {
    var middle, front, back := Target(s), Target(Init(s)), Source(Init(t));
    assert |Last(s).Produced()| == 1 && |Last(t).Consumed()| == 1;
    assert middle == front + Last(s).Produced() && middle == back + Last(t).Consumed();
    assert front == middle[..|middle| - 1] && back == middle[..|middle| - 1];
  }

  /** Two scripts run one after the other, as one script. */
  function Compose<T(==)>(s: Script<T>, t: Script<T>): Script<T>
    requires Target(s) == Source(t)
    decreases |s| + |t|
  {
    if s != [] && Last(s).Delete? then Compose(Init(s), t) + [Last(s)]
    else if t != [] && Last(t).Insert? then Compose(s, Init(t)) + [Last(t)]
    else if s == [] || t == [] then []
    else
      LastTokens(s, t);
      Compose(Init(s), Init(t)) + Fuse(Last(s), Last(t))
  }

  lemma FuseTransforms<T>(r: Script<T>, first: Edit<T>, second: Edit<T>)
    requires !first.Delete? && !second.Insert? && first.Produced() == second.Consumed()
    ensures Transforms(r + Fuse(first, second), Source(r) + first.Consumed(), Target(r) + second.Produced())
    ensures Cost(r + Fuse(first, second)) <= Cost(r) + first.Cost() + second.Cost()
  {
    var f := Fuse(first, second);
    if f == [] {
      assert r + f == r;
    } else {
      Snoc(r, f[0]);
      assert f == [f[0]];
    }
  }

  /** `Compose` runs from the first script's source to the second one's target, at no more than
      their joint cost. */
  lemma {:induction false} ComposeTransforms<T>(s: Script<T>, t: Script<T>)
    requires Target(s) == Source(t)
    ensures Transforms(Compose(s, t), Source(s), Target(t))
    ensures Cost(Compose(s, t)) <= Cost(s) + Cost(t)
    decreases |s| + |t|
  {
    if s != [] && Last(s).Delete? {
      ComposeTransforms(Init(s), t);
      Snoc(Compose(Init(s), t), Last(s));
    } else if t != [] && Last(t).Insert? {
      ComposeTransforms(s, Init(t));
      Snoc(Compose(s, Init(t)), Last(t));
    } else if s != [] && t != [] {
      LastTokens(s, t);
      ComposeTransforms(Init(s), Init(t));
      FuseTransforms(Compose(Init(s), Init(t)), Last(s), Last(t));
    } else {
      assert s != [] ==> Target(s) != [];
      assert t != [] ==> Source(t) != [];
    }
  }

  lemma {:induction false} Symmetric<T>(a: seq<T>, b: seq<T>)
    ensures Distance(a, b) == Distance(b, a)
  {
    AlignmentIsOptimal(a, b);
    NoScriptIsCheaper(Inverse(Alignment(a, b)));
    AlignmentIsOptimal(b, a);
    NoScriptIsCheaper(Inverse(Alignment(b, a)));
  }

  lemma Triangle<T>(a: seq<T>, b: seq<T>, c: seq<T>)
    ensures Distance(a, c) <= Distance(a, b) + Distance(b, c)
  {
    AlignmentIsOptimal(a, b);
    AlignmentIsOptimal(b, c);
    ComposeTransforms(Alignment(a, b), Alignment(b, c));
    NoScriptIsCheaper(Compose(Alignment(a, b), Alignment(b, c)));
  }

  lemma {:induction false} ZeroIffEqual<T>(a: seq<T>, b: seq<T>)
    ensures Distance(a, b) == 0 <==> a == b
    decreases |a|
  {
    if a != [] && b != [] && Last(a) == Last(b) {
      ZeroIffEqual(Init(a), Init(b));
      assert a == Init(a) + [Last(a)] && b == Init(b) + [Last(b)];
    }
  }

  /** The distance lies between the difference of the lengths and the longer length. */
  lemma {:induction false} LengthBounds<T>(a: seq<T>, b: seq<T>)
    ensures |a| - |b| <= Distance(a, b) && |b| - |a| <= Distance(a, b)
    ensures Distance(a, b) <= if |a| <= |b| then |b| else |a|
    decreases |a| + |b|
  {
    if a != [] && b != [] {
      LengthBounds(Init(a), Init(b));
      LengthBounds(Init(a), b);
      LengthBounds(a, Init(b));
    }
  }
}
