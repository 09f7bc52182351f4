/** SQLite's `LIKE` operator as the catalog queries use it: `%` matches any
    run of characters, `_` matches exactly one, every other pattern
    character matches itself up to ASCII case (SQLite's default; there is
    no ESCAPE clause in the queries). */
module Like {
  import opened Text

  /** `command_expand_like`: the pattern `%command%`. */
  function ExpandLike(command: string): string
  {
    "%" + command + "%"
  }

  predicate NoWildcards(t: string)
  {
    '%' !in t && '_' !in t
  }

  /** `s LIKE p`. */
  predicate LikeMatch(s: string, p: string)
    decreases |s| + |p|
  {
    if p == [] then s == []
    else if p[0] == '%' then LikeMatch(s, p[1..]) || (s != [] && LikeMatch(s[1..], p))
    else s != [] && (p[0] == '_' || LowerChar(s[0]) == LowerChar(p[0])) && LikeMatch(s[1..], p[1..])
  }

  /** A lone `%` matches everything. */
  lemma {:induction false} PercentMatchesAll(s: string)
    ensures LikeMatch(s, "%")
    decreases |s|
  {
    if s != [] {
      PercentMatchesAll(s[1..]);
    }
  }

  /** For a pattern without wildcards, `t%` is a case-insensitive prefix test. */
  lemma {:induction false} PrefixPattern(s: string, t: string)
    requires NoWildcards(t)
    ensures LikeMatch(s, t + "%") <==> StartsWith(Lower(s), Lower(t))
    decreases |t|
  {
    if t == [] {
      PercentMatchesAll(s);
      assert t + "%" == "%";
    } else {
      assert (t + "%")[1..] == t[1..] + "%";
      PrefixPattern(s[if s == [] then 0 else 1..], t[1..]);
      if s != [] {
        assert Lower(s)[1..] == Lower(s[1..]);
        assert Lower(t)[1..] == Lower(t[1..]);
        if StartsWith(Lower(s), Lower(t)) {
          assert Lower(s)[..|t|][0] == Lower(t)[0];
          assert Lower(s[1..])[..|t| - 1] == Lower(s)[..|t|][1..] == Lower(t)[1..];
          assert StartsWith(Lower(s[1..]), Lower(t[1..]));
        }
      }
    }
  }

  /** The pattern `command_expand_like` builds from a token without
      wildcards selects exactly the names containing the token, ignoring
      ASCII case. */
  lemma {:induction false} ExpandLikeIsContains(s: string, t: string)
    requires NoWildcards(t)
    ensures LikeMatch(s, ExpandLike(t)) <==> ContainsIgnoreCase(s, t)
    decreases |s|
  {
    var q := t + "%";
    assert ExpandLike(t) == "%" + q;
    assert ("%" + q)[1..] == q;
    PrefixPattern(s, t);
    if s != [] {
      ExpandLikeIsContains(s[1..], t);
      assert Lower(s)[1..] == Lower(s[1..]);
    }
  }

  /** Every string matches `s%`, whatever wildcards `s` itself holds. */
  lemma {:induction false} SelfPrefixMatch(s: string)
    ensures LikeMatch(s, s + "%")
    decreases |s|
  {
    if s == [] {
      PercentMatchesAll(s);
      assert s + "%" == "%";
    } else {
      SelfPrefixMatch(s[1..]);
      assert (s + "%")[1..] == s[1..] + "%";
      if s[0] == '%' {
        assert LikeMatch(s[1..], (s + "%")[1..]);
      }
    }
  }

  /** A name always matches the pattern built from itself, so an entry whose
      name is the token is never filtered out. */
  lemma SelfMatch(s: string)
    ensures LikeMatch(s, ExpandLike(s))
  {
    SelfPrefixMatch(s);
    assert ExpandLike(s) == "%" + (s + "%");
    assert ("%" + (s + "%"))[1..] == s + "%";
  }
}
