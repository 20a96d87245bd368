/** Text with square brackets, and lists written with a separator that counts outside brackets only. */
module BracketedText {
  import opened Wrappers

  /**
   Reads `s` at bracket depth `depth`. The result is the depth at the end, or nothing if a bracket
   is closed that was not opened or if `sep` occurs at depth zero.
   */
  function Scan(sep: Option<char>, s: string, depth: nat): Option<nat> {
    if s == "" then Some(depth)
    else if s[0] == '[' then Scan(sep, s[1..], depth + 1)
    else if s[0] == ']' then if depth == 0 then None else Scan(sep, s[1..], depth - 1)
    else if depth == 0 && sep == Some(s[0]) then None
    else Scan(sep, s[1..], depth)
  }

  /** Brackets match. */
  predicate Balanced(s: string) {
    Scan(None, s, 0) == Some(0)
  }

  /** Brackets match, and the separator occurs inside brackets only. */
  predicate Clean(sep: char, s: string) {
    Scan(Some(sep), s, 0) == Some(0)
  }

  /** Text without any of the characters that separate or group. */
  predicate Plain(s: string) {
    forall i :: 0 <= i < |s| ==> s[i] !in {':', '[', ']', ','}
  }

  predicate IsSeparator(sep: Option<char>) {
    sep in {None, Some(':'), Some(',')}
  }

  lemma {:induction false} ScanAppend(sep: Option<char>, a: string, b: string, depth: nat)
    ensures Scan(sep, a + b, depth) ==
      match Scan(sep, a, depth) case Some(d) => Scan(sep, b, d) case None => None
    decreases |a|
  {
    if a == "" {
      assert a + b == b;
    } else {
      assert (a + b)[1..] == a[1..] + b;
      if a[0] == '[' {
        ScanAppend(sep, a[1..], b, depth + 1);
      } else if a[0] == ']' {
        if depth > 0 {
          ScanAppend(sep, a[1..], b, depth - 1);
        }
      } else if !(depth == 0 && sep == Some(a[0])) {
        ScanAppend(sep, a[1..], b, depth);
      }
    }
  }

  lemma {:induction false} PlainScan(sep: Option<char>, s: string, depth: nat)
    requires Plain(s) && IsSeparator(sep)
    ensures Scan(sep, s, depth) == Some(depth)
    decreases |s|
  {
    if s != "" {
      PlainScan(sep, s[1..], depth);
    }
  }

  /** Inside brackets there are no separators. */
  lemma {:induction false} ScanInside(sep: Option<char>, s: string, depth: nat)
    requires Scan(None, s, depth).Some?
    ensures Scan(sep, s, depth + 1) == Some(Scan(None, s, depth).value + 1)
    decreases |s|
  {
    if s != "" {
      if s[0] == '[' {
        ScanInside(sep, s[1..], depth + 1);
      } else if s[0] == ']' {
        ScanInside(sep, s[1..], depth - 1);
      } else {
        ScanInside(sep, s[1..], depth);
      }
    }
  }

  /** Text that is clean for a separator has matching brackets. */
  lemma {:induction false} CleanIsBalanced(sep: char, s: string, depth: nat)
    requires Scan(Some(sep), s, depth).Some?
    ensures Scan(None, s, depth) == Scan(Some(sep), s, depth)
    decreases |s|
  {
    if s != "" {
      if s[0] == '[' {
        CleanIsBalanced(sep, s[1..], depth + 1);
      } else if s[0] == ']' {
        CleanIsBalanced(sep, s[1..], depth - 1);
      } else {
        CleanIsBalanced(sep, s[1..], depth);
      }
    }
  }

  /** Balanced text in brackets is clean for any separator. */
  lemma BracketsAreClean(sep: char, s: string)
    requires Balanced(s)
    ensures Clean(sep, "[" + s + "]")
  {
    ScanInside(Some(sep), s, 0);
    ScanAppend(Some(sep), "[" + s, "]", 0);
    ScanAppend(Some(sep), "[", s, 0);
    assert Scan(Some(sep), "[", 0) == Some(1) by {
      assert "["[1..] == "";
    }
    assert Scan(Some(sep), "]", 1) == Some(0) by {
      assert "]"[1..] == "";
    }
  }

  lemma CleanAppend(sep: char, a: string, b: string)
    requires Clean(sep, a) && Clean(sep, b)
    ensures Clean(sep, a + b)
  {
    ScanAppend(Some(sep), a, b, 0);
  }

  // ---------------------------------------------------------------------------
  // Lists

  function Join(sep: char, parts: seq<string>): string {
    if parts == [] then ""
    else if |parts| == 1 then parts[0]
    else parts[0] + [sep] + Join(sep, parts[1..])
  }

  /** The length of the part before the first separator outside brackets. */
  function FirstCut(sep: char, s: string, depth: nat): (n: nat)
    ensures n <= |s|
  {
    if s == "" then 0
    else if s[0] == '[' then 1 + FirstCut(sep, s[1..], depth + 1)
    else if s[0] == ']' then 1 + FirstCut(sep, s[1..], if depth == 0 then 0 else depth - 1)
    else if depth == 0 && s[0] == sep then 0
    else 1 + FirstCut(sep, s[1..], depth)
  }

  /** The parts between separators outside brackets. */
  function Split(sep: char, s: string): seq<string>
    decreases |s|
  {
    var n := FirstCut(sep, s, 0);
    if n == |s| then [s] else [s[..n]] + Split(sep, s[n + 1..])
  }

  lemma {:induction false} CutAfterClean(sep: char, s: string, rest: string, depth: nat)
    requires Scan(Some(sep), s, depth) == Some(0) && sep != '[' && sep != ']'
    ensures FirstCut(sep, s + [sep] + rest, depth) == |s| && FirstCut(sep, s, depth) == |s|
    decreases |s|
  {
    if s == "" {
      assert s + [sep] + rest == [sep] + rest;
    } else {
      assert (s + [sep] + rest)[1..] == s[1..] + [sep] + rest;
      if s[0] == '[' {
        CutAfterClean(sep, s[1..], rest, depth + 1);
      } else if s[0] == ']' {
        CutAfterClean(sep, s[1..], rest, depth - 1);
      } else {
        CutAfterClean(sep, s[1..], rest, depth);
      }
    }
  }

  /** Splitting finds the parts that were joined. */
  lemma {:induction false} SplitJoin(sep: char, parts: seq<string>)
    requires parts != [] && sep != '[' && sep != ']'
    requires forall i :: 0 <= i < |parts| ==> Clean(sep, parts[i])
    ensures Split(sep, Join(sep, parts)) == parts
    decreases |parts|
  {
    if |parts| == 1 {
      CutAfterClean(sep, parts[0], "", 0);
    } else {
      var rest := Join(sep, parts[1..]);
      CutAfterClean(sep, parts[0], rest, 0);
      SplitJoin(sep, parts[1..]);
      var whole := Join(sep, parts);
      assert whole == parts[0] + [sep] + rest;
      assert whole[..|parts[0]|] == parts[0] && whole[|parts[0]| + 1..] == rest;
    }
  }

  /** A list of balanced parts is balanced. */
  lemma {:induction false} JoinIsBalanced(sep: char, parts: seq<string>)
    requires sep != '[' && sep != ']'
    requires forall i :: 0 <= i < |parts| ==> Balanced(parts[i])
    ensures Balanced(Join(sep, parts))
    decreases |parts|
  {
    if |parts| > 1 {
      var rest := Join(sep, parts[1..]);
      JoinIsBalanced(sep, parts[1..]);
      ScanAppend(None, parts[0] + [sep], rest, 0);
      ScanAppend(None, parts[0], [sep], 0);
      assert Scan(None, [sep], 0) == Some(0) by {
        assert [sep][1..] == "";
      }
    }
  }

  lemma {:induction false} JoinAppend(sep: char, a: seq<string>, b: seq<string>)
    requires a != [] && b != []
    ensures Join(sep, a + b) == Join(sep, a) + [sep] + Join(sep, b)
    decreases |a|
  {
    if |a| == 1 {
      assert (a + b)[1..] == b;
    } else {
      assert (a + b)[1..] == a[1..] + b;
      JoinAppend(sep, a[1..], b);
      assert Join(sep, a + b) == a[0] + [sep] + (Join(sep, a[1..]) + [sep] + Join(sep, b));
    }
  }
}
