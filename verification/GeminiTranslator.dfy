/** The translator itself: requests, in-place writes to shared subtitle objects, and batches that
    are cleared in place, proved against `Translation.Process` and `TranslationRun.Run`. */
module GeminiTranslator {
  import opened Translation
  import opened TranslationRun

  class Subtitle {
    var content: string

    constructor (content: string)
      ensures this.content == content
    {
      this.content := content;
    }
  }

  /** A list of lines that is emptied in place to tell its holder that it is done. */
  class Batch {
    var items: seq<Item>

    constructor (items: seq<Item>)
      ensures this.items == items
    {
      this.items := items;
    }
  }

  /** How a request turned out, for the code that sent it. */
  datatype Reaction = Accept | Abort | Limit | Reject

  function AsAttempt(reaction: Reaction, s: State): Attempt {
    match reaction
    case Accept => Accepted(s)
    case Abort => Aborted(s)
    case Limit => Limited(s)
    case Reject => Rejected(s)
  }

  class Translator {
    const world: World
    var startLine: nat
    var batchSize: nat
    var currentProgress: nat
    var requests: nat
    /** The translation so far, with its history. */
    ghost var state: State

    constructor (world: World, batchSize: nat, subtitles: seq<Subtitle>)
      requires batchSize > 0
      requires forall i, j :: 0 <= i < j < |subtitles| ==> subtitles[i] != subtitles[j]
      ensures this.world == world && this.batchSize == batchSize && startLine == 1
      ensures Valid(subtitles) && state == State(0, 0, state.texts, [], [])
    {
      this.world, this.batchSize, startLine := world, batchSize, 1;
      currentProgress, requests := 0, 0;
      var texts := seq(|subtitles|, i requires 0 <= i < |subtitles| reads subtitles => subtitles[i].content);
      state := State(0, 0, texts, [], []);
    }

    /** The object and the subtitle objects it translates are in the state it records. */
    ghost predicate Valid(subtitles: seq<Subtitle>)
      reads this, subtitles
    {
      && requests == state.calls && currentProgress == state.progress
      && |state.texts| == |subtitles|
      && (forall i :: 0 <= i < |subtitles| ==> subtitles[i].content == state.texts[i])
      && (forall i, j :: 0 <= i < j < |subtitles| ==> subtitles[i] != subtitles[j])
    }

    /** Write a reply's lines into the subtitle objects; false stands for an exception. */
    method ProcessTranslatedLines(lines: seq<Line>, subtitles: seq<Subtitle>, batch: Batch) returns (ok: bool)
      requires Valid(subtitles) && InRange(batch.items, |subtitles|)
      modifies this`state, subtitles
      ensures Valid(subtitles)
      ensures var (texts, written) := WriteLines(world, batch.items, lines, old(state.texts));
        ok == written && state == old(state).(texts := texts)
    {
      var n := 0;
      while n < |lines|
        invariant n <= |lines| && Valid(subtitles) && state == old(state).(texts := state.texts)
        invariant WriteLines(world, batch.items, lines, old(state.texts))
                  == WriteLines(world, batch.items, lines[n..], state.texts)
      {
        var line := lines[n];
        assert lines[n..][1..] == lines[n + 1..];
        if line.Unkeyed? {
          return true;
        }
        if line.Raising? || !Mentions(batch.items, line.index) {
          return false;
        }
        var text := Mark(world, line.content);
        subtitles[line.index].content := text;
        state := state.(texts := state.texts[line.index := text]);
        n := n + 1;
      }
      return true;
    }

    /** Send a batch once and work through the reply. */
    method SendBatch(batch: Batch, subtitles: seq<Subtitle>) returns (reaction: Reaction)
      requires Valid(subtitles) && InRange(batch.items, |subtitles|)
      modifies this`requests, this`currentProgress, this`state, subtitles
      ensures Valid(subtitles)
      ensures AsAttempt(reaction, state) == Request(world, old(state), batch.items)
    {
      var answer := world.answer(requests);
      requests := requests + 1;
      state := state.(calls := requests, sent := state.sent + [batch.items]);
      match answer
      case Failed => return Reject;
      case RateLimited(rotated) => return if rotated then Limit else Abort;
      case Reply(lines) =>
        var written := ProcessTranslatedLines(lines, subtitles, batch);
        if !written {
          return Reject;
        }
        currentProgress := currentProgress + |lines|;
        state := state.(progress := currentProgress);
        if |lines| != |batch.items| {
          return Reject;
        }
        state := state.(accepted := state.accepted + [Exchange(batch.items, lines)]);
        return Accept;
    }

    /** Translate a batch; false stands for an exception. The batch object ends up empty exactly
        when the call returns normally. */
    method ProcessBatch(batch: Batch, subtitles: seq<Subtitle>, retries: nat) returns (ok: bool)
      requires Valid(subtitles) && InRange(batch.items, |subtitles|)
      modifies this`requests, this`currentProgress, this`state, batch, subtitles
      ensures Valid(subtitles)
      ensures Outcome(state, ok) == Process(world, old(state), old(batch.items), retries)
      ensures batch.items == if ok then [] else old(batch.items)
      decreases |batch.items|, retries
    {
      var reaction := SendBatch(batch, subtitles);
      if reaction == Accept {
        batch.items := [];
        return true;
      }
      if reaction == Abort {
        return false;
      }
      if reaction == Limit && retries > 0 {
        ok := ProcessBatch(batch, subtitles, retries - 1);
        return;
      }
      if |batch.items| > 1 {
        var mid := |batch.items| / 2;
        var first := new Batch(batch.items[..mid]);
        var second := new Batch(batch.items[mid..]);
        ok := ProcessBatch(first, subtitles, 3);
        if ok {
          ok := ProcessBatch(second, subtitles, 3);
        }
        if ok {
          batch.items := [];
        }
      } else if retries > 0 {
        ok := ProcessBatch(batch, subtitles, retries - 1);
      } else {
        ok := false;
      }
    }

    /** The batching loop over a whole file; false stands for an exception. */
    method Translate(subtitles: seq<Subtitle>) returns (ok: bool)
      requires Valid(subtitles) && startLine > 0 && batchSize > 0
      modifies this`batchSize, this`requests, this`currentProgress, this`state, subtitles
      ensures Valid(subtitles)
      ensures Outcome(state, ok) == Run(world, old(state), startLine, old(batchSize))
    {
      if |subtitles| < batchSize {
        batchSize := |subtitles|;
      }
      var i := startLine - 1;
      if i >= |subtitles| {
        return false;
      }
      ok := TranslateFrom(subtitles, i);
    }

    method TranslateFrom(subtitles: seq<Subtitle>, first: nat) returns (ok: bool)
      requires Valid(subtitles) && first < |subtitles| && batchSize > 0
      modifies this`requests, this`currentProgress, this`state, subtitles
      ensures Valid(subtitles)
      ensures Outcome(state, ok) == RunFrom(world, old(state), first, batchSize)
    {
      var i, total := first, |subtitles|;
      ghost var from: nat := i;
      ghost var whole := RunFrom(world, state, from, batchSize);
      var batch := new Batch([Item(i, subtitles[i].content)]);
      i := i + 1;
      while i < total || |batch.items| > 0
        invariant from <= i <= total && |batch.items| == i - from <= batchSize
        invariant Valid(subtitles) && batch.items == Block(state.texts, from, i)
        invariant whole == RunFrom(world, state, from, batchSize)
        decreases 2 * (total - i) + |batch.items|
      {
        if i < total && |batch.items| < batchSize {
          Collect(batch, subtitles, from, i);
          i := i + 1;
          continue;
        }
        ok := ProcessBlock(batch, subtitles, from, i);
        from := i;
        if !ok {
          return false;
        }
      }
      return true;
    }

    method Collect(batch: Batch, subtitles: seq<Subtitle>, ghost i: nat, j: nat)
      requires Valid(subtitles) && i <= j < |subtitles| && batch.items == Block(state.texts, i, j)
      modifies batch
      ensures Valid(subtitles) && batch.items == Block(state.texts, i, j + 1)
      ensures |batch.items| == old(|batch.items|) + 1
    {
      batch.items := batch.items + [Item(j, subtitles[j].content)];
    }

    /** One top-level batch, as a step of the run. */
    method ProcessBlock(batch: Batch, subtitles: seq<Subtitle>, ghost i: nat, ghost j: nat) returns (ok: bool)
      requires Valid(subtitles) && batchSize > 0
      requires i < j == BlockEnd(i, batchSize, |subtitles|) && batch.items == Block(state.texts, i, j)
      modifies this`requests, this`currentProgress, this`state, batch, subtitles
      ensures Valid(subtitles)
      ensures RunFrom(world, old(state), i, batchSize)
              == if ok then RunFrom(world, state, j, batchSize) else Outcome(state, false)
      ensures ok ==> batch.items == []
    {
      BlockIsGood(state.texts, i, j);
      ghost var before := state;
      ok := ProcessBatch(batch, subtitles, 3);
      RunContinues(world, before, i, j, batchSize, Outcome(state, ok));
    }
  }
}
