/** Generic sequence operations: splitting a sequence on a separator element
    (Python's `split` with an explicit one-element separator), its inverse
    `Join`, and the counting/flattening helpers used to state their laws. */
module Sequences {

  /** Number of occurrences of `x` in `s`. */
  function Count<T(==)>(s: seq<T>, x: T): nat
  {
    if s == [] then 0 else (if s[0] == x then 1 else 0) + Count(s[1..], x)
  }

  /** `s` with every occurrence of `x` removed. */
  function Remove<T(==)>(s: seq<T>, x: T): seq<T>
  {
    if s == [] then [] else (if s[0] == x then [] else [s[0]]) + Remove(s[1..], x)
  }

  /** Concatenation of all parts. */
  function Flatten<T>(parts: seq<seq<T>>): seq<T>
  {
    if parts == [] then [] else parts[0] + Flatten(parts[1..])
  }

  /** The parts glued back together with one `sep` between neighbours. */
  function Join<T>(parts: seq<seq<T>>, sep: T): seq<T>
  {
    if parts == [] then []
    else if |parts| == 1 then parts[0]
    else parts[0] + [sep] + Join(parts[1..], sep)
  }

  /** The pieces of `s` between occurrences of `sep`, as Python's
      `s.split(sep)` gives them: one more piece than there are separators,
      empty pieces kept. */
  function Split<T(==)>(s: seq<T>, sep: T): (parts: seq<seq<T>>)
    ensures |parts| == Count(s, sep) + 1
    ensures forall i :: 0 <= i < |parts| ==> sep !in parts[i]
    decreases |s|
  {
    if s == [] then [[]]
    else
      var rest := Split(s[1..], sep);
      if s[0] == sep then [[]] + rest
      else [[s[0]] + rest[0]] + rest[1..]
  }

  /** Joining the pieces with the separator gives back the input. */
  lemma {:induction false} SplitJoin<T>(s: seq<T>, sep: T)
    ensures Join(Split(s, sep), sep) == s
    decreases |s|
  {
    if s != [] {
      var rest := Split(s[1..], sep);
      SplitJoin(s[1..], sep);
      if s[0] == sep {
        assert Split(s, sep)[1..] == rest;
      } else {
        var parts := Split(s, sep);
        if |rest| == 1 {
          assert parts == [[s[0]] + rest[0]];
        } else {
          assert parts[1..] == rest[1..];
          assert Join(rest, sep) == rest[0] + [sep] + Join(rest[1..], sep);
        }
      }
    }
  }

  lemma FlattenCons<T>(head: seq<T>, parts: seq<seq<T>>)
    ensures Flatten([head] + parts) == head + Flatten(parts)
  {
    assert ([head] + parts)[1..] == parts;
  }

  /** Concatenating the pieces gives the input with every separator removed. */
  lemma {:induction false} SplitFlatten<T>(s: seq<T>, sep: T)
    ensures Flatten(Split(s, sep)) == Remove(s, sep)
    decreases |s|
  {
    if s != [] {
      var rest := Split(s[1..], sep);
      SplitFlatten(s[1..], sep);
      FlattenCons([], rest);
      if s[0] != sep {
        FlattenCons(rest[0], rest[1..]);
        assert rest == [rest[0]] + rest[1..];
        FlattenCons([s[0]] + rest[0], rest[1..]);
      }
    }
  }

  /** The last piece is empty exactly when the input is empty or ends with
      the separator. */
  lemma {:induction false} SplitLastEmpty<T>(s: seq<T>, sep: T)
    ensures var parts := Split(s, sep);
            parts[|parts| - 1] == [] <==> (s == [] || s[|s| - 1] == sep)
    decreases |s|
  {
    if s != [] {
      SplitLastEmpty(s[1..], sep);
      var rest := Split(s[1..], sep);
      if s[0] != sep && |rest| == 1 {
        assert Split(s, sep) == [[s[0]] + rest[0]];
      }
    }
  }

  /** One step of `Split` from the front. */
  lemma SplitCons<T>(x: T, s: seq<T>, sep: T)
    ensures Split([x] + s, sep) ==
              if x == sep then [[]] + Split(s, sep)
              else [[x] + Split(s, sep)[0]] + Split(s, sep)[1..]
  {
    assert ([x] + s)[1..] == s;
  }

  lemma SplitSingle<T>(x: T, sep: T)
    ensures Split([x], sep) == if x == sep then [[], []] else [[x]]
  {
    assert [x][1..] == [];
    assert Split([x][1..], sep) == [[]];
    assert [x] + [] == [x];
  }

  /** How one more element extends the pieces: a separator opens a new empty
      piece, anything else is appended to the last piece. */
  lemma {:induction false} SplitSnoc<T>(s: seq<T>, x: T, sep: T)
    ensures var parts := Split(s, sep);
            Split(s + [x], sep) ==
              if x == sep then parts + [[]]
              else parts[..|parts| - 1] + [parts[|parts| - 1] + [x]]
    decreases |s|
  {
    if s == [] {
      assert s + [x] == [x];
      SplitSingle(x, sep);
    } else {
      assert (s + [x])[1..] == s[1..] + [x];
      SplitSnoc(s[1..], x, sep);
      if s[0] != sep {
        SplitSnocStep(s, x, sep);
      } else {
        SplitSnocSepStep(s, x, sep);
      }
    }
  }

  lemma SplitSnocSepStep<T>(s: seq<T>, x: T, sep: T)
    requires s != [] && s[0] == sep
    requires var rest := Split(s[1..], sep);
             Split(s[1..] + [x], sep) ==
               if x == sep then rest + [[]]
               else rest[..|rest| - 1] + [rest[|rest| - 1] + [x]]
    ensures var parts := Split(s, sep);
            Split(s + [x], sep) ==
              if x == sep then parts + [[]]
              else parts[..|parts| - 1] + [parts[|parts| - 1] + [x]]
  {
    assert (s + [x])[1..] == s[1..] + [x];
    if x == sep {
      ConsAppend([], Split(s[1..], sep), []);
    } else {
      ConsExtendLast(Split(s[1..], sep), x);
    }
  }

  lemma ConsExtendLast<T>(rest: seq<seq<T>>, x: T)
    requires rest != []
    ensures var parts := [[]] + rest;
            [[]] + (rest[..|rest| - 1] + [rest[|rest| - 1] + [x]])
              == parts[..|parts| - 1] + [parts[|parts| - 1] + [x]]
  {
    var parts := [[]] + rest;
    assert parts[..|parts| - 1] == [[]] + rest[..|rest| - 1];
  }

  lemma SplitSnocStep<T>(s: seq<T>, x: T, sep: T)
    requires s != [] && s[0] != sep
    requires var rest := Split(s[1..], sep);
             Split(s[1..] + [x], sep) ==
               if x == sep then rest + [[]]
               else rest[..|rest| - 1] + [rest[|rest| - 1] + [x]]
    ensures var parts := Split(s, sep);
            Split(s + [x], sep) ==
              if x == sep then parts + [[]]
              else parts[..|parts| - 1] + [parts[|parts| - 1] + [x]]
  {
    if x == sep {
      SplitSnocStepSep(s, x, sep);
    } else {
      SplitSnocStepExtend(s, x, sep);
    }
  }

  lemma SplitSnocStepSep<T>(s: seq<T>, x: T, sep: T)
    requires s != [] && s[0] != sep && x == sep
    requires Split(s[1..] + [x], sep) == Split(s[1..], sep) + [[]]
    ensures Split(s + [x], sep) == Split(s, sep) + [[]]
  {
    var rest := Split(s[1..], sep);
    assert (s + [x])[1..] == s[1..] + [x];
    SplitUnfold(s, sep);
    SplitUnfold(s + [x], sep);
    TailSnoc(rest, []);
    ConsAppend([s[0]] + rest[0], rest[1..], []);
  }

  lemma TailSnoc<U>(a: seq<U>, y: U)
    requires a != []
    ensures (a + [y])[0] == a[0] && (a + [y])[1..] == a[1..] + [y]
  {
  }

  lemma SplitSnocStepExtend<T>(s: seq<T>, x: T, sep: T)
    requires s != [] && s[0] != sep && x != sep
    requires var rest := Split(s[1..], sep);
             Split(s[1..] + [x], sep) == rest[..|rest| - 1] + [rest[|rest| - 1] + [x]]
    ensures var parts := Split(s, sep);
            Split(s + [x], sep) == parts[..|parts| - 1] + [parts[|parts| - 1] + [x]]
  {
    var rest := Split(s[1..], sep);
    assert (s + [x])[1..] == s[1..] + [x];
    SplitUnfold(s, sep);
    SplitUnfold(s + [x], sep);
    ExtendLast([s[0]], rest, x);
  }

  /** The pieces of a sequence that starts with something other than the
      separator: that element heads the first piece of the rest. */
  lemma SplitUnfold<T>(s: seq<T>, sep: T)
    requires s != [] && s[0] != sep
    ensures Split(s, sep) == [[s[0]] + Split(s[1..], sep)[0]] + Split(s[1..], sep)[1..]
  {
  }

  lemma ConsAppend<T>(head: seq<T>, tail: seq<seq<T>>, last: seq<T>)
    ensures [head] + (tail + [last]) == ([head] + tail) + [last]
  {
  }

  /** Prefixing the first part commutes with extending the last part. */
  lemma ExtendLast<T>(p: seq<T>, rest: seq<seq<T>>, x: T)
    requires rest != []
    ensures var n := |rest|;
            var rest' := rest[..n - 1] + [rest[n - 1] + [x]];
            var parts := [p + rest[0]] + rest[1..];
            [p + rest'[0]] + rest'[1..] == parts[..n - 1] + [parts[n - 1] + [x]]
  {
    var n := |rest|;
    var rest' := rest[..n - 1] + [rest[n - 1] + [x]];
    var parts := [p + rest[0]] + rest[1..];
    if n == 1 {
      assert p + (rest[0] + [x]) == (p + rest[0]) + [x];
    } else {
      assert rest'[0] == rest[0];
      assert rest'[1..] == rest[1..n - 1] + [rest[n - 1] + [x]];
      assert parts[..n - 1] == [p + rest[0]] + rest[1..n - 1];
      assert parts[n - 1] == rest[n - 1];
    }
  }
}
