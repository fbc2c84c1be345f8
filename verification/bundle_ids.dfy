/**
 * Dot-separated bundle identifiers: Foundation's `hasSuffix` and
 * `components(separatedBy: ".")` on strings, with the join that undoes the split.
 */
module BundleIds {

  /** Foundation's `hasSuffix`, compared character by character. */
  function HasSuffix(s: string, suffix: string): (r: bool)
    ensures r <==> |suffix| <= |s| && forall i | 0 <= i < |suffix| :: s[|s| - |suffix| + i] == suffix[i]
    ensures r ==> s == s[..|s| - |suffix|] + suffix
  {
    |suffix| <= |s| && s[|s| - |suffix|..] == suffix
  }

  predicate DotFree(s: string) {
    '.' !in s
  }

  /** Splits at every '.'; adjacent or edge dots give empty components, and "" splits into [""]. */
  function Components(s: string): (r: seq<string>)
    ensures |r| >= 1
  {
    if |s| == 0 then [""]
    else
      var rest := Components(s[1..]);
      if s[0] == '.' then [""] + rest
      else [[s[0]] + rest[0]] + rest[1..]
  }

  /** Glues components back together with '.' between neighbours. */
  function Join(cs: seq<string>): string
    requires |cs| >= 1
  {
    if |cs| == 1 then cs[0] else cs[0] + "." + Join(cs[1..])
  }

  lemma {:induction false} JoinComponents(s: string)
    ensures Join(Components(s)) == s
  {
    if |s| > 0 {
      JoinComponents(s[1..]);
      var rest := Components(s[1..]);
      if s[0] == '.' {
        assert Components(s) == [""] + rest;
        assert s == "." + s[1..];
      } else if |rest| == 1 {
        assert Components(s) == [[s[0]] + rest[0]];
        assert s == [s[0]] + s[1..];
      } else {
        var cs := Components(s);
        assert cs == [[s[0]] + rest[0]] + rest[1..];
        assert cs[1..] == rest[1..];
        assert Join(rest) == rest[0] + "." + Join(rest[1..]);
        assert s == [s[0]] + s[1..];
      }
    }
  }

  lemma {:induction false} ComponentsDotFree(s: string)
    ensures forall c | c in Components(s) :: DotFree(c)
  {
    if |s| > 0 {
      ComponentsDotFree(s[1..]);
      var rest := Components(s[1..]);
      if s[0] != '.' {
        assert DotFree(rest[0]);
        assert [s[0]] + rest[0] == Components(s)[0];
        forall c | c in Components(s) ensures DotFree(c) {
          if c != [s[0]] + rest[0] {
            assert c in rest[1..];
          }
        }
      }
    }
  }

  lemma {:induction false} ComponentsOfDotFree(s: string)
    requires DotFree(s)
    ensures Components(s) == [s]
  {
    if |s| > 0 {
      ComponentsOfDotFree(s[1..]);
      assert s == [s[0]] + s[1..];
    }
  }

  lemma {:induction false} ComponentsAfterDotFreePrefix(a: string, b: string)
    requires DotFree(a)
    ensures Components(a + "." + b) == [a] + Components(b)
  {
    var s := a + "." + b;
    if |a| == 0 {
      assert s == "." + b;
      assert s[1..] == b;
    } else {
      assert s[0] == a[0];
      assert s[1..] == a[1..] + "." + b;
      ComponentsAfterDotFreePrefix(a[1..], b);
      assert [a[0]] + a[1..] == a;
    }
  }

  /** The split is the only dot-free decomposition that joins back to the string. */
  lemma {:induction false} ComponentsUnique(cs: seq<string>, s: string)
    requires |cs| >= 1
    requires forall c | c in cs :: DotFree(c)
    requires Join(cs) == s
    ensures Components(s) == cs
    decreases |cs|
  {
    if |cs| == 1 {
      ComponentsOfDotFree(cs[0]);
    } else {
      assert cs[0] in cs;
      forall c | c in cs[1..] ensures DotFree(c) {
        assert c in cs;
      }
      ComponentsUnique(cs[1..], Join(cs[1..]));
      ComponentsAfterDotFreePrefix(cs[0], Join(cs[1..]));
      assert cs == [cs[0]] + cs[1..];
    }
  }

  lemma {:induction false} JoinAppend(a: seq<string>, b: seq<string>)
    requires |a| >= 1 && |b| >= 1
    ensures Join(a + b) == Join(a) + "." + Join(b)
    decreases |a|
  {
    if |a| == 1 {
      assert (a + b)[1..] == b;
    } else {
      assert (a + b)[1..] == a[1..] + b;
      JoinAppend(a[1..], b);
    }
  }

  /** Splitting distributes over a '.' that joins two identifiers. */
  lemma ComponentsAtDot(p: string, q: string)
    ensures Components(p + "." + q) == Components(p) + Components(q)
  {
    var cp, cq := Components(p), Components(q);
    JoinComponents(p);
    JoinComponents(q);
    JoinAppend(cp, cq);
    ComponentsDotFree(p);
    ComponentsDotFree(q);
    ComponentsUnique(cp + cq, p + "." + q);
  }

  /** The suffix direction: a string ending in ".w" has w as its last component, after at least one dot. */
  lemma DotSuffixGivesLastComponent(s: string, w: string)
    requires DotFree(w) && HasSuffix(s, "." + w)
    ensures var cs := Components(s); |cs| >= 2 && cs[|cs| - 1] == w
  {
    var p := s[..|s| - |w| - 1];
    assert s == p + ("." + w);
    assert s == p + "." + w;
    ComponentsAtDot(p, w);
    ComponentsOfDotFree(w);
  }

  /** A string built as p + "." + w ends with "." + w. */
  lemma DottedConcatHasSuffix(p: string, w: string)
    ensures HasSuffix(p + "." + w, "." + w)
  {
    var s := p + "." + w;
    assert s[|p|..] == "." + w;
  }

  /** Joining a list of two or more ends with "." and the last element. */
  lemma JoinEndsWithLast(cs: seq<string>, w: string)
    requires |cs| >= 2 && cs[|cs| - 1] == w
    ensures HasSuffix(Join(cs), "." + w)
  {
    var front := cs[..|cs| - 1];
    assert cs == front + [w];
    JoinAppend(front, [w]);
    assert Join([w]) == w;
    DottedConcatHasSuffix(Join(front), w);
  }

  /** The component direction: a last component w after at least one dot means the string ends in ".w". */
  lemma LastComponentGivesDotSuffix(s: string, w: string)
    requires var cs := Components(s); |cs| >= 2 && cs[|cs| - 1] == w
    ensures HasSuffix(s, "." + w)
  {
    JoinComponents(s);
    JoinEndsWithLast(Components(s), w);
  }

  /** A suffix ".w", for a dot-free w, is exactly a last component w after at least one dot. */
  lemma DotSuffixIsLastComponent(s: string, w: string)
    requires DotFree(w)
    ensures HasSuffix(s, "." + w) <==>
              var cs := Components(s); |cs| >= 2 && cs[|cs| - 1] == w
  {
    var cs := Components(s);
    if HasSuffix(s, "." + w) {
      DotSuffixGivesLastComponent(s, w);
    }
    if |cs| >= 2 && cs[|cs| - 1] == w {
      LastComponentGivesDotSuffix(s, w);
    }
  }
}
