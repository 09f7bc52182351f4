/** Splitting a `do` command line into pipeline stages (`do_break_pipes`). */
module Pipes {
  import opened Sequences

  /** The standalone token that separates two stages. */
  const Bar: string := "|"

  /** True when the tokens after the last `|` (all of them when there is
      none) are non-empty, i.e. the input neither is empty nor ends in `|`. */
  predicate HasTail(args: seq<string>)
  {
    args != [] && args[|args| - 1] != Bar
  }

  /** The stages `do_break_pipes` returns: the runs of tokens between `|`
      tokens, empty ones included, except that an empty last run is dropped. */
  function PipeGroups(args: seq<string>): (groups: seq<seq<string>>)
    ensures forall i :: 0 <= i < |groups| ==> Bar !in groups[i]
    ensures Flatten(groups) == Remove(args, Bar)
    ensures |groups| == Count(args, Bar) + (if HasTail(args) then 1 else 0)
  {
    var pieces := Split(args, Bar);
    SplitFlatten(args, Bar);
    SplitLastEmpty(args, Bar);
    var n := |pieces|;
    if pieces[n - 1] == [] then
      FlattenDropEmptyLast(pieces);
      pieces[..n - 1]
    else
      pieces
  }

  lemma {:induction false} FlattenDropEmptyLast<T>(parts: seq<seq<T>>)
    requires parts != [] && parts[|parts| - 1] == []
    ensures Flatten(parts[..|parts| - 1]) == Flatten(parts)
    decreases |parts|
  {
    if |parts| > 1 {
      FlattenDropEmptyLast(parts[1..]);
      assert parts[1..][..|parts| - 2] == parts[..|parts| - 1][1..];
    }
  }

  /** Re-inserting `|` between the stages (plus an empty last stage when the
      input is empty or ends in `|`) gives back the original tokens. */
  lemma PipeGroupsRoundTrip(args: seq<string>)
    ensures Join(PipeGroups(args) + (if HasTail(args) then [] else [[]]), Bar) == args
  {
    PipeGroupsSplit(args);
    SplitJoin(args, Bar);
  }

  /** The stages are the pieces between `|` tokens, less the empty last
      piece that an empty input or a trailing `|` leaves. */
  lemma PipeGroupsSplit(args: seq<string>)
    ensures PipeGroups(args) + (if HasTail(args) then [] else [[]]) == Split(args, Bar)
  {
    var pieces := Split(args, Bar);
    SplitLastEmpty(args, Bar);
    var n := |pieces|;
    if HasTail(args) {
      assert PipeGroups(args) + [] == pieces;
    } else {
      assert pieces[..n - 1] + [[]] == pieces;
    }
  }

  /** `do_break_pipes`: one pass over the tokens, closing the current group
      at each `|` and keeping the final group only when it is non-empty. */
  method BreakPipes(args: seq<string>) returns (groups: seq<seq<string>>)
    ensures groups == PipeGroups(args)
  {
    groups := [];
    var current: seq<string> := [];
    for i := 0 to |args|
      invariant groups + [current] == Split(args[..i], Bar)
    {
      SplitSnoc(args[..i], args[i], Bar);
      assert args[..i + 1] == args[..i] + [args[i]];
      if args[i] == Bar {
        groups := groups + [current];
        current := [];
      } else {
        current := current + [args[i]];
      }
    }
    assert args[..|args|] == args;
    if current != [] {
      groups := groups + [current];
    } else {
      assert groups == (groups + [current])[..|groups|];
    }
  }

  /** `cmd word | pipe` breaks into the stage `cmd word` and the stage
      `pipe`. */
  lemma CommandThenPipe(cmd: string, word: string, pipe: string)
    requires cmd != Bar && word != Bar && pipe != Bar
    ensures PipeGroups([cmd, word, Bar, pipe]) == [[cmd, word], [pipe]]
  {
    SplitSingle(pipe, Bar);
    SplitCons(Bar, [pipe], Bar);
    assert [Bar] + [pipe] == [Bar, pipe];
    assert Split([Bar, pipe], Bar) == [[], [pipe]];
    SplitCons(word, [Bar, pipe], Bar);
    assert [word] + [Bar, pipe] == [word, Bar, pipe];
    assert [word] + [] == [word];
    assert Split([word, Bar, pipe], Bar) == [[word], [pipe]];
    SplitCons(cmd, [word, Bar, pipe], Bar);
    assert [cmd] + [word, Bar, pipe] == [cmd, word, Bar, pipe];
    assert [cmd] + [word] == [cmd, word];
    assert Split([cmd, word, Bar, pipe], Bar) == [[cmd, word], [pipe]];
  }

  /** `cmd | pipe` gives the stages `[cmd]` and `[pipe]`. */
  lemma CommandAloneThenPipe(cmd: string, pipe: string)
    requires cmd != Bar && pipe != Bar
    ensures PipeGroups([cmd, Bar, pipe]) == [[cmd], [pipe]]
  {
    SplitSingle(pipe, Bar);
    SplitCons(Bar, [pipe], Bar);
    assert [Bar] + [pipe] == [Bar, pipe];
    assert Split([Bar, pipe], Bar) == [[], [pipe]];
    SplitCons(cmd, [Bar, pipe], Bar);
    assert [cmd] + [Bar, pipe] == [cmd, Bar, pipe];
    assert [cmd] + [] == [cmd];
    assert Split([cmd, Bar, pipe], Bar) == [[cmd], [pipe]];
  }
}
