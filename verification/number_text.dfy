/** The text rewriting `toFloat` applies before `parseFloat`
    (src/app/ingredients/ingredients.component.ts, lines 158-169).

    The component searches the input with the regular expression
    `[0-9,.]*([,.])[0-9]*` (no global flag, so the first match is the
    one found) and reads the captured separator. A `,` separator means
    "comma decimal": the first `.` is deleted and then the first `,` becomes
    `.`. A `.` separator means "dot decimal": the first `,` is deleted.
    `String.prototype.replace` with a string pattern touches only the first
    occurrence, so a second grouping mark survives the rewrite. */
module NumberText {
  import opened Wrappers

  predicate IsDigit(c: char) { '0' <= c <= '9' }

  ghost predicate AllDigits(s: string) { forall k | 0 <= k < |s| :: IsDigit(s[k]) }

  /** A character of the class `[0-9,.]`. */
  predicate IsNumChar(c: char) { IsDigit(c) || c == ',' || c == '.' }

  /** A character of the class `[,.]`. */
  predicate IsSep(c: char) { c == ',' || c == '.' }

  // ---------------------------------------------------------------------
  // Regular-expression semantics, stated declaratively.
  // ---------------------------------------------------------------------

  /** The expression matches at `start` with its group on index `g`:
      `[0-9,.]*` consumes `s[start..g]`, and `([,.])` consumes `s[g]`.
      The trailing `[0-9]*` may match the empty string, so it never
      prevents a match. */
  ghost predicate CapturesAt(s: string, start: nat, g: nat) {
    start <= g < |s| && IsSep(s[g]) && forall k | start <= k < g :: IsNumChar(s[k])
  }

  ghost predicate MatchesAt(s: string, start: nat) {
    exists g :: CapturesAt(s, start, g)
  }

  /** `s.match(re)` reports group index `g`: the leftmost start position
      that matches at all, and at that start the greedy star backs off as
      little as possible, so the group sits on the largest possible index. */
  ghost predicate FirstMatchGroup(s: string, start: nat, g: nat) {
    && CapturesAt(s, start, g)
    && (forall p: nat | p < start :: !MatchesAt(s, p))
    && (forall g': nat | g < g' :: !CapturesAt(s, start, g'))
  }

  // ---------------------------------------------------------------------
  // One left-to-right pass that finds the same group.
  // ---------------------------------------------------------------------

  datatype Capture = Capture(start: nat, group: nat)

  /** Scans `s` from `i`. `runStart` opens the current maximal run of
      `[0-9,.]` characters, and `last` is the last separator seen in it. */
  function Search(s: string, i: nat, runStart: nat, last: Option<nat>): (r: Option<Capture>)
    requires runStart <= i <= |s|
    requires runStart == 0 || !IsNumChar(s[runStart - 1])
    requires forall k | runStart <= k < i :: IsNumChar(s[k])
    requires forall p: nat | p < runStart :: !MatchesAt(s, p)
    requires last.None? ==> forall k | runStart <= k < i :: !IsSep(s[k])
    requires last.Some? ==> runStart <= last.value < i && IsSep(s[last.value])
    requires last.Some? ==> forall k | last.value < k < i :: !IsSep(s[k])
    ensures r.Some? ==> FirstMatchGroup(s, r.value.start, r.value.group)
    ensures r.None? ==> forall p: nat :: !MatchesAt(s, p)
    decreases |s| - i
  {
    if i == |s| then
      if last.Some? then
        assert forall g': nat | last.value < g' :: !CapturesAt(s, runStart, g');
        Some(Capture(runStart, last.value))
      else
        assert forall p: nat | runStart <= p :: !MatchesAt(s, p) by {
          forall p: nat, g: nat | runStart <= p ensures !CapturesAt(s, p, g) {
          }
        }
        None
    else if IsNumChar(s[i]) then
      Search(s, i + 1, runStart, if IsSep(s[i]) then Some(i) else last)
    else if last.Some? then
      assert forall g': nat | last.value < g' :: !CapturesAt(s, runStart, g') by {
        forall g': nat | last.value < g' ensures !CapturesAt(s, runStart, g') {
          if g' > i {
            assert !IsNumChar(s[i]);
          }
        }
      }
      Some(Capture(runStart, last.value))
    else
      assert forall p: nat | p < i + 1 :: !MatchesAt(s, p) by {
        forall p: nat, g: nat | runStart <= p <= i ensures !CapturesAt(s, p, g) {
          if g > i {
            assert !IsNumChar(s[i]);
          }
        }
      }
      Search(s, i + 1, i + 1, None)
  }

  /** `input.match(delimiterRegex)`, reduced to the captured separator:
      None when the expression does not match. */
  function Delimiter(s: string): (r: Option<char>)
    ensures r.None? <==> forall p: nat :: !MatchesAt(s, p)
    ensures r.Some? ==> exists start: nat, g: nat :: FirstMatchGroup(s, start, g) && s[g] == r.value
  {
    match Search(s, 0, 0, None)
    case None => None
    case Some(c) =>
      assert MatchesAt(s, c.start);
      Some(s[c.group])
  }

  // ---------------------------------------------------------------------
  // First-occurrence replacement and the rewrite itself.
  // ---------------------------------------------------------------------

  /** Index of the first `c` in `s`. */
  function IndexOf(s: string, c: char): (r: Option<nat>)
    ensures r.None? <==> c !in s
    ensures r.Some? ==> r.value < |s| && s[r.value] == c && c !in s[..r.value]
  {
    if |s| == 0 then None
    else if s[0] == c then Some(0)
    else
      match IndexOf(s[1..], c)
      case None => None
      case Some(i) =>
        assert s[..i + 1] == [s[0]] + s[1..][..i];
        Some(i + 1)
  }

  /** `s.replace(c, rep)` for a one-character string pattern `c` and a
      replacement without `$` patterns. */
  function ReplaceFirst(s: string, c: char, rep: string): (r: string)
    ensures c !in s ==> r == s
    ensures c in s ==> |r| == |s| - 1 + |rep|
    ensures c in s ==> exists i | 0 <= i < |s| && s[i] == c && c !in s[..i] :: r == s[..i] + rep + s[i + 1..]
  {
    match IndexOf(s, c)
    case None => s
    case Some(i) => s[..i] + rep + s[i + 1..]
  }

  /** The first occurrence is the one replaced: whatever precedes it is
      kept, and so is everything after it, later occurrences included. */
  lemma ReplaceFirstAt(a: string, c: char, b: string, rep: string)
    requires c !in a
    ensures ReplaceFirst(a + [c] + b, c, rep) == a + rep + b
  {
    var s := a + [c] + b;
    assert s[|a|] == c;
    assert s[..|a|] == a && s[|a| + 1..] == b;
  }

  /** The string `toFloat` hands to `parseFloat`. Whatever the input, the
      rewrite only deletes or rewrites separators: every other character
      survives, in order, and at most two characters go away. */
  function Normalise(input: string): (r: string)
    ensures (forall p: nat :: !MatchesAt(input, p)) ==> r == input
    ensures StripSeparators(r) == StripSeparators(input)
    ensures |input| - 2 <= |r| <= |input|
  {
    match Delimiter(input)
    case Some(',') =>
      ReplaceFirstKeepsOthers(input, '.', "");
      ReplaceFirstKeepsOthers(ReplaceFirst(input, '.', ""), ',', ".");
      ReplaceFirst(ReplaceFirst(input, '.', ""), ',', ".")
    case Some('.') =>
      ReplaceFirstKeepsOthers(input, ',', "");
      ReplaceFirst(input, ',', "")
    case _ => input
  }

  // ---------------------------------------------------------------------
  // What the rewrite does.
  // ---------------------------------------------------------------------

  /** When the whole input is one run of `[0-9,.]`, the separator found is
      the last one in the input. */
  lemma DelimiterOfSingleRun(s: string, g: nat)
    requires forall k | 0 <= k < |s| :: IsNumChar(s[k])
    requires g < |s| && IsSep(s[g])
    requires forall k | g < k < |s| :: !IsSep(s[k])
    ensures Delimiter(s) == Some(s[g])
  {
    assert CapturesAt(s, 0, g);
    assert MatchesAt(s, 0);
    var c := Search(s, 0, 0, None).value;
    assert c.start == 0;
    assert c.group == g;
  }

  /** `pre d c` with `pre` a run of `[0-9,.]`, `d` a separator and `c`
      digits: the whole input is one run and `d` is its last separator. */
  lemma DelimiterOfLast(pre: string, d: char, c: string)
    requires AllNumChars(pre)
    requires IsSep(d) && AllDigits(c)
    ensures Delimiter(pre + [d] + c) == Some(d)
  {
    var s := pre + [d] + c;
    var g := |pre|;
    forall k | 0 <= k < |s| ensures IsNumChar(s[k]) {
      if k < g { assert s[k] == pre[k]; }
      else if k > g { assert s[k] == c[k - g - 1]; }
    }
    forall k | g < k < |s| ensures !IsSep(s[k]) {
      assert s[k] == c[k - g - 1];
    }
    DelimiterOfSingleRun(s, g);
  }

  /** Input with no `,` and no `.` is handed to `parseFloat` unchanged. */
  lemma NoSeparatorUnchanged(s: string)
    requires ',' !in s && '.' !in s
    ensures Normalise(s) == s
  {
    forall p: nat ensures !MatchesAt(s, p) {
      forall g: nat | p <= g < |s| ensures !IsSep(s[g]) {
        assert s[g] in s;
      }
    }
  }

  ghost predicate AllNumChars(s: string) { forall k | 0 <= k < |s| :: IsNumChar(s[k]) }

  lemma NumCharsJoin(a: string, m: char, b: string)
    requires AllDigits(a) && IsSep(m) && AllNumChars(b)
    ensures AllNumChars(a + [m] + b)
  {
    var s := a + [m] + b;
    forall k | 0 <= k < |s| ensures IsNumChar(s[k]) {
      if k < |a| { assert s[k] == a[k]; } else if k > |a| { assert s[k] == b[k - |a| - 1]; }
    }
  }

  lemma NoSepInDigits(a: string)
    requires AllDigits(a)
    ensures ',' !in a && '.' !in a
  {
    forall k | 0 <= k < |a| ensures a[k] != ',' && a[k] != '.' { assert IsDigit(a[k]); }
  }

  lemma Regroup(a: string, x: char, b: string, y: char, c: string)
    ensures a + [x] + b + [y] + c == a + [x] + (b + [y] + c)
    ensures a + [x] + (b + [y] + c) == a + [x] + b + [y] + c
  {
  }

  lemma DropGlue(a: string, b: string, y: char, c: string)
    ensures a + "" + (b + [y] + c) == (a + b) + [y] + c
  {
  }

  lemma NoCommaJoin(a: string, b: string)
    requires AllDigits(a) && ',' !in b
    ensures ',' !in a + b
  {
    NoSepInDigits(a);
    forall k | 0 <= k < |a + b| ensures (a + b)[k] != ',' {
      if k >= |a| { assert (a + b)[k] == b[k - |a|]; } else { assert (a + b)[k] == a[k]; }
    }
  }

  /** In `a m b d c` with digits around, the last separator `d` is the
      one found. */
  lemma DelimiterAfterGroup(a: string, m: char, b: string, d: char, c: string)
    requires AllDigits(a) && IsSep(m) && AllNumChars(b)
    requires IsSep(d) && AllDigits(c)
    ensures Delimiter(a + [m] + b + [d] + c) == Some(d)
  {
    NumCharsJoin(a, m, b);
    DelimiterOfLast(a + [m] + b, d, c);
  }

  /** Comma decimal with dot grouping: in `a.b,c` the `.` is deleted and
      the `,` becomes the decimal point. Only the FIRST `.` is deleted:
      `b` may itself hold further dots, which survive. */
  lemma CommaDecimal(a: string, b: string, c: string)
    requires AllDigits(a) && AllDigits(c)
    requires AllNumChars(b) && ',' !in b
    ensures Normalise(a + "." + b + "," + c) == a + b + "." + c
  {
    DelimiterAfterGroup(a, '.', b, ',', c);
    NoSepInDigits(a);
    Regroup(a, '.', b, ',', c);
    ReplaceFirstAt(a, '.', b + "," + c, "");
    DropGlue(a, b, ',', c);
    NoCommaJoin(a, b);
    ReplaceFirstAt(a + b, ',', c, ".");
  }

  /** Dot decimal with comma grouping: in `a,b.c` the first `,` is deleted;
      further commas in `b` survive. */
  lemma DotDecimal(a: string, b: string, c: string)
    requires AllDigits(a) && AllDigits(c)
    requires AllNumChars(b) && '.' !in b
    ensures Normalise(a + "," + b + "." + c) == a + b + "." + c
  {
    DelimiterAfterGroup(a, ',', b, '.', c);
    NoSepInDigits(a);
    Regroup(a, ',', b, '.', c);
    ReplaceFirstAt(a, ',', b + "." + c, "");
    DropGlue(a, b, '.', c);
  }

  /** A lone `,` between digits is read as the decimal point. */
  lemma CommaOnly(a: string, c: string)
    requires AllDigits(a) && AllDigits(c)
    ensures Normalise(a + "," + c) == a + "." + c
  {
    NoSepInDigits(a);
    NoSepInDigits(c);
    DelimiterOfLast(a, ',', c);
    var s := a + "," + c;
    assert '.' !in s by {
      forall k | 0 <= k < |s| ensures s[k] != '.' {
        if k < |a| { assert s[k] == a[k]; } else if k > |a| { assert s[k] == c[k - |a| - 1]; }
      }
    }
    ReplaceFirstAt(a, ',', c, ".");
  }

  /** The input with every `,` and `.` removed. */
  function StripSeparators(s: string): (r: string)
    ensures forall k | 0 <= k < |r| :: !IsSep(r[k])
  {
    if |s| == 0 then ""
    else if IsSep(s[0]) then StripSeparators(s[1..])
    else [s[0]] + StripSeparators(s[1..])
  }

  lemma {:induction false} StripConcat(a: string, b: string)
    ensures StripSeparators(a + b) == StripSeparators(a) + StripSeparators(b)
  {
    if |a| == 0 {
      assert a + b == b;
    } else {
      assert (a + b)[1..] == a[1..] + b;
      StripConcat(a[1..], b);
    }
  }

  /** Replacing a separator by separators changes nothing else. */
  lemma ReplaceFirstKeepsOthers(s: string, c: char, rep: string)
    requires IsSep(c) && forall k | 0 <= k < |rep| :: IsSep(rep[k])
    ensures StripSeparators(ReplaceFirst(s, c, rep)) == StripSeparators(s)
  {
    match IndexOf(s, c)
    case None =>
    case Some(i) =>
      assert s == s[..i] + [c] + s[i + 1..];
      StripConcat(s[..i] + [c], s[i + 1..]);
      StripConcat(s[..i], [c]);
      StripConcat(s[..i] + rep, s[i + 1..]);
      StripConcat(s[..i], rep);
      assert StripSeparators([c]) == "";
      StripNone(rep);
  }

  lemma {:induction false} StripNone(s: string)
    requires forall k | 0 <= k < |s| :: IsSep(s[k])
    ensures StripSeparators(s) == ""
  {
    if |s| > 0 {
      StripNone(s[1..]);
    }
  }

  lemma ExampleCommaDecimal()
    ensures Normalise("1.234,56") == "1234.56"
  {
    assert AllNumChars("234");
    assert "1" + "." + "234" + "," + "56" == "1.234,56";
    assert "1" + "234" + "." + "56" == "1234.56";
    CommaDecimal("1", "234", "56");
  }

  lemma ExampleDotDecimal()
    ensures Normalise("1,234.56") == "1234.56"
  {
    assert AllNumChars("234");
    assert "1" + "," + "234" + "." + "56" == "1,234.56";
    assert "1" + "234" + "." + "56" == "1234.56";
    DotDecimal("1", "234", "56");
  }

  lemma ExampleCommaOnly()
    ensures Normalise("12,5") == "12.5"
  {
    assert AllDigits("12") && AllDigits("5");
    assert "12" + "," + "5" == "12,5";
    assert "12" + "." + "5" == "12.5";
    CommaOnly("12", "5");
  }

  /** Only the first grouping mark is removed. */
  lemma ExampleTwoGroups()
    ensures Normalise("1.234.567,89") == "1234.567.89"
  {
    assert AllNumChars("234.567");
    assert "1" + "." + "234.567" + "," + "89" == "1.234.567,89";
    assert "1" + "234.567" + "." + "89" == "1234.567.89";
    CommaDecimal("1", "234.567", "89");
  }
}
