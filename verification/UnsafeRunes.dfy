// Which unsafe runes SanitizeName (internal/service/sanitize.go) rejects: the check comes after the
// edits, so those the edits remove go unnoticed.
module UnsafeRunes {
  import opened Common
  import opened Sanitize

  predicate AllSpace(s: string) {
    forall i :: 0 <= i < |s| ==> IsSpace(s[i])
  }

  predicate IsFormFeed(c: char) {
    c == '\U{C}'
  }

  // What Collapse may see as white space once the variants and breaks have been replaced.
  predicate Collapsible(c: char) {
    IsRegexSpace(c) || IsVariantSpace(c)
  }

  // A form feed next to another Collapsible character is collapsed with it; other white space, such as
  // U+1680, does not absorb it.
  predicate NextToSpace(s: string, i: nat)
    requires i < |s|
  {
    IsFormFeed(s[i]) && ((i > 0 && Collapsible(s[i - 1])) || (i + 1 < |s| && Collapsible(s[i + 1])))
  }

  // The three ways out of the text: collapsed, or trimmed away at either end.
  predicate Removed(s: string, i: nat)
    requires i < |s|
  {
    NextToSpace(s, i) || AllSpace(s[..i + 1]) || AllSpace(s[i..])
  }

  lemma AllSpaceSplit(s: string, n: nat)
    requires n <= |s|
    ensures AllSpace(s) <==> AllSpace(s[..n]) && AllSpace(s[n..])
  {
    forall i | 0 <= i < |s|
      ensures s[i] == if i < n then s[..n][i] else s[n..][i - n]
    {
    }
    if AllSpace(s) {
      assert forall i :: 0 <= i < |s[n..]| ==> s[n..][i] == s[n + i];
    }
  }

  // ---- Trimming ----

  lemma {:induction false} TrimLeftBound(s: string) returns (k: nat)
    ensures k <= |s| && TrimLeft(s) == s[k..] && AllSpace(s[..k]) && (k < |s| ==> !IsSpace(s[k]))
  {
    if |s| > 0 && IsSpace(s[0]) {
      var k' := TrimLeftBound(s[1..]);
      k := k' + 1;
      assert forall i :: 0 < i < k ==> s[i] == s[1..][..k'][i - 1];
    } else {
      k := 0;
    }
  }

  lemma {:induction false} TrimRightBound(s: string) returns (k: nat)
    ensures k <= |s| && TrimRight(s) == s[..k] && AllSpace(s[k..]) && (k > 0 ==> !IsSpace(s[k - 1]))
  {
    if |s| > 0 && IsSpace(s[|s| - 1]) {
      var init := s[..|s| - 1];
      k := TrimRightBound(init);
      assert init[..k] == s[..k];
      assert forall i :: k <= i < |init| ==> s[i] == init[k..][i - k];
    } else {
      k := |s|;
    }
  }

  lemma TrimBounds(c: string) returns (a: nat, b: nat)
    ensures a <= b <= |c| && Trim(c) == c[a..b] && AllSpace(c[..a]) && AllSpace(c[b..])
    ensures a < b ==> !IsSpace(c[a]) && !IsSpace(c[b - 1])
    ensures a == b ==> AllSpace(c)
  {
    a := TrimLeftBound(c);
    var k := TrimRightBound(c[a..]);
    b := a + k;
    assert c[a..][..k] == c[a..b] && c[a..][k..] == c[b..];
    AllSpaceSplit(c, a);
  }

  // After an optional non-space (seen), an unsafe rune that trimming leaves in place.
  ghost predicate Shown(c: string, seen: bool) {
    exists i :: 0 <= i < |c| && ShownAt(c, i, seen)
  }

  predicate ShownAt(c: string, i: nat, seen: bool)
    requires i < |c|
  {
    IsUnsafeRune(c[i]) && (seen || !AllSpace(c[..i + 1])) && !AllSpace(c[i..])
  }

  // Inside the trimmed part there is a character that is not space on either side.
  lemma InsideTrim(c: string, a: nat, b: nat, i: nat)
    requires a < b <= |c| && i < |c| && AllSpace(c[..a]) && AllSpace(c[b..])
    requires !IsSpace(c[a]) && !IsSpace(c[b - 1])
    ensures AllSpace(c[..i + 1]) <==> i < a
    ensures AllSpace(c[i..]) <==> b <= i
  {
    if i < a {
      assert c[..i + 1] == c[..a][..i + 1];
    } else {
      assert c[..i + 1][a] == c[a];
    }
    if b <= i {
      assert c[i..] == c[b..][i - b..];
    } else {
      assert c[i..][b - 1 - i] == c[b - 1];
    }
  }

  lemma TrimSafeIff(c: string)
    ensures Safe(Trim(c)) <==> !Shown(c, false)
    ensures Trim(c) == "" <==> AllSpace(c)
  {
    var a, b := TrimBounds(c);
    if a == b {
      forall i | 0 <= i < |c|
        ensures !ShownAt(c, i, false)
      {
        AllSpaceSplit(c, i);
      }
    } else {
      forall i | 0 <= i < |c|
        ensures ShownAt(c, i, false) <==> a <= i < b && IsUnsafeRune(c[i])
      {
        InsideTrim(c, a, b, i);
      }
      assert forall j :: 0 <= j < b - a ==> c[a..b][j] == c[a + j];
      if Shown(c, false) {
        var i :| 0 <= i < |c| && ShownAt(c, i, false);
        assert c[a..b][i - a] == c[i];
      }
    }
  }

  // ---- Collapsing ----

  // The same before Collapse, on text whose only white space is the plain kind and form feeds.
  ghost predicate Exposed(t: string, seen: bool) {
    exists i :: 0 <= i < |t| && ExposedAt(t, i, seen)
  }

  predicate ExposedAt(t: string, i: nat, seen: bool)
    requires i < |t|
  {
    ShownAt(t, i, seen) && !NextToSpace(t, i)
  }

  predicate StartsExposed(t: string, seen: bool)
    requires |t| > 0
  {
    IsUnsafeRune(t[0]) && (seen || !IsSpace(t[0])) && !AllSpace(t)
  }

  lemma ShiftAllSpace(t: string, i: nat)
    requires 0 < i < |t|
    ensures AllSpace(t[..i + 1]) <==> IsSpace(t[0]) && AllSpace(t[1..][..i])
    ensures t[i..] == t[1..][i - 1..]
  {
    assert t[..i + 1] == [t[0]] + t[1..][..i];
    if AllSpace(t[..i + 1]) {
      assert forall j :: 0 <= j < i ==> t[1..][..i][j] == t[..i + 1][j + 1];
      assert t[..i + 1][0] == t[0];
    }
  }

  lemma ShownShift(t: string, i: nat, seen: bool)
    requires 0 < i < |t|
    ensures ShownAt(t, i, seen) <==> ShownAt(t[1..], i - 1, seen || !IsSpace(t[0]))
  {
    ShiftAllSpace(t, i);
  }

  lemma ShownFirst(t: string, seen: bool)
    requires |t| > 0
    ensures ShownAt(t, 0, seen) <==> StartsExposed(t, seen)
  {
    assert t[..1] == [t[0]] && t[0..] == t;
    assert AllSpace([t[0]]) <==> IsSpace([t[0]][0]);
  }

  lemma ShownCons(c: string, seen: bool)
    requires |c| > 0
    ensures Shown(c, seen) <==> StartsExposed(c, seen) || Shown(c[1..], seen || !IsSpace(c[0]))
  {
    ShownFirst(c, seen);
    forall i | 0 < i < |c|
      ensures ShownAt(c, i, seen) <==> ShownAt(c[1..], i - 1, seen || !IsSpace(c[0]))
    {
      ShownShift(c, i, seen);
    }
    if Shown(c[1..], seen || !IsSpace(c[0])) {
      var i :| 0 <= i < |c[1..]| && ShownAt(c[1..], i, seen || !IsSpace(c[0]));
      assert ShownAt(c, i + 1, seen);
    }
  }

  // No white space is collapsed across the first character.
  predicate CutsClean(t: string) {
    |t| > 0 && (|t| > 1 ==> !(Collapsible(t[0]) && Collapsible(t[1])))
  }

  lemma ExposedShift(t: string, i: nat, seen: bool)
    requires CutsClean(t) && 0 < i < |t|
    ensures ExposedAt(t, i, seen) <==> ExposedAt(t[1..], i - 1, seen || !IsSpace(t[0]))
  {
    ShownShift(t, i, seen);
    assert NextToSpace(t, i) <==> NextToSpace(t[1..], i - 1);
  }

  lemma ExposedFirst(t: string, seen: bool)
    requires CutsClean(t)
    ensures ExposedAt(t, 0, seen) <==> StartsExposed(t, seen)
  {
    ShownFirst(t, seen);
  }

  lemma ExposedCons(t: string, seen: bool)
    requires CutsClean(t)
    ensures Exposed(t, seen) <==> StartsExposed(t, seen) || Exposed(t[1..], seen || !IsSpace(t[0]))
  {
    ExposedFirst(t, seen);
    if Exposed(t, seen) {
      var i :| 0 <= i < |t| && ExposedAt(t, i, seen);
      if i > 0 {
        ExposedShift(t, i, seen);
      }
    }
    if Exposed(t[1..], seen || !IsSpace(t[0])) {
      var i :| 0 <= i < |t[1..]| && ExposedAt(t[1..], i, seen || !IsSpace(t[0]));
      ExposedShift(t, i + 1, seen);
    }
  }

  lemma RunIsAbsorbed(t: string, n: nat, i: nat)
    requires 2 <= n <= |t| && i < n && forall j :: 0 <= j < n ==> IsRegexSpace(t[j]) && !IsBreak(t[j])
    ensures IsUnsafeRune(t[i]) ==> NextToSpace(t, i)
  {
    if i > 0 {
      assert IsRegexSpace(t[i - 1]);
    } else {
      assert IsRegexSpace(t[i + 1]);
    }
  }

  lemma AfterRunAllSpace(t: string, n: nat, i: nat)
    requires n <= i < |t| && AllSpace(t[..n])
    ensures AllSpace(t[..i + 1]) <==> AllSpace(t[n..][..i - n + 1])
    ensures t[i..] == t[n..][i - n..]
  {
    AllSpaceSplit(t[..i + 1], n);
    assert t[..i + 1][..n] == t[..n] && t[..i + 1][n..] == t[n..][..i - n + 1];
  }

  // A run of two or more: nothing unsafe in it survives, and it tells trimming nothing new.
  lemma ExposedAfterRun(t: string, n: nat, seen: bool)
    requires 2 <= n <= |t| && forall j :: 0 <= j < n ==> IsRegexSpace(t[j]) && !IsBreak(t[j])
    requires n < |t| ==> !Collapsible(t[n])
    ensures Exposed(t, seen) <==> Exposed(t[n..], seen)
  {
    assert AllSpace(t[..n]);
    forall i | 0 <= i < n
      ensures !ExposedAt(t, i, seen)
    {
      RunIsAbsorbed(t, n, i);
    }
    forall i | n <= i < |t|
      ensures ExposedAt(t, i, seen) <==> ExposedAt(t[n..], i - n, seen)
    {
      AfterRunAllSpace(t, n, i);
      assert NextToSpace(t, i) <==> NextToSpace(t[n..], i - n);
    }
    if Exposed(t[n..], seen) {
      var i :| 0 <= i < |t[n..]| && ExposedAt(t[n..], i, seen);
      assert ExposedAt(t, i + n, seen);
    }
  }

  lemma AllSpaceCons(x: char, s: string)
    ensures AllSpace([x] + s) <==> IsSpace(x) && AllSpace(s)
  {
    if AllSpace([x] + s) {
      assert ([x] + s)[0] == x;
      assert forall j :: 0 <= j < |s| ==> s[j] == ([x] + s)[j + 1];
    }
  }

  lemma {:induction false} CollapseKeepsAllSpace(t: string)
    ensures AllSpace(Collapse(t)) <==> AllSpace(t)
    decreases |t|
  {
    if |t| > 0 {
      var n := if IsRegexSpace(t[0]) then Leading(t, IsRegexSpace) else 1;
      CollapseKeepsAllSpace(t[n..]);
      assert t == t[..n] + t[n..];
      AllSpaceCons(Collapse(t)[0], Collapse(t[n..]));
      assert Collapse(t) == [Collapse(t)[0]] + Collapse(t[n..]);
      assert AllSpace(t) ==> forall j :: 0 <= j < |t[n..]| ==> t[n..][j] == t[j + n];
    }
  }

  lemma {:induction false} CollapseExposes(t: string, seen: bool)
    requires PlainSpaces(t)
    ensures Shown(Collapse(t), seen) <==> Exposed(t, seen)
    decreases |t|
  {
    if |t| > 0 {
      CollapseKeepsAllSpace(t);
      var n := Leading(t, IsRegexSpace);
      var c := Collapse(t);
      ShownCons(c, seen);
      if n >= 2 {
        assert c == " " + Collapse(t[n..]) && c[1..] == Collapse(t[n..]);
        ExposedAfterRun(t, n, seen);
        CollapseExposes(t[n..], seen);
      } else {
        assert c == [t[0]] + Collapse(t[1..]) && c[1..] == Collapse(t[1..]);
        ExposedCons(t, seen);
        CollapseExposes(t[1..], seen || !IsSpace(t[0]));
      }
    }
  }

  // ---- The whole pipeline ----

  lemma ReplacedAt(s: string, i: nat)
    requires i < |s|
    ensures var t := ReplaceBreaks(ReplaceSpaces(s));
            && |t| == |s|
            && t[i] == (if IsVariantSpace(s[i]) || IsBreak(s[i]) then ' ' else s[i])
            && (IsUnsafeRune(t[i]) <==> IsUnsafeRune(s[i])) && (IsSpace(t[i]) <==> IsSpace(s[i]))
            && (IsFormFeed(t[i]) <==> IsFormFeed(s[i])) && (Collapsible(t[i]) <==> Collapsible(s[i]))
  {
    assert ReplaceSpaces(s)[i] == if IsVariantSpace(s[i]) then ' ' else s[i];
  }

  lemma ReplacedExposure(s: string, t: string)
    requires |t| == |s|
    requires forall i :: 0 <= i < |s| ==>
               && (IsUnsafeRune(t[i]) <==> IsUnsafeRune(s[i])) && (IsSpace(t[i]) <==> IsSpace(s[i]))
               && (IsFormFeed(t[i]) <==> IsFormFeed(s[i])) && (Collapsible(t[i]) <==> Collapsible(s[i]))
    ensures AllSpace(t) <==> AllSpace(s)
    ensures forall i :: 0 <= i < |s| ==> (ExposedAt(t, i, false) <==> IsUnsafeRune(s[i]) && !Removed(s, i))
  {
    forall i | 0 <= i < |s|
      ensures ExposedAt(t, i, false) <==> IsUnsafeRune(s[i]) && !Removed(s, i)
    {
      SameAllSpace(s[..i + 1], t[..i + 1]);
      SameAllSpace(s[i..], t[i..]);
    }
    SameAllSpace(s, t);
  }

  lemma SameAllSpace(s: string, t: string)
    requires |t| == |s| && forall i :: 0 <= i < |s| ==> (IsSpace(t[i]) <==> IsSpace(s[i]))
    ensures AllSpace(t) <==> AllSpace(s)
  {
  }

  // The edited text is safe exactly when every unsafe rune of the text is one the edits remove: a
  // form feed next to a space, tab, line break, form feed or listed variant, or a rune with nothing but
  // white space before or after it, which a vertical tab, a form feed or U+0085 can be. It is empty
  // exactly when the text is white space.
  lemma EditIsSafeIff(s: string)
    ensures Safe(Edit(s)) <==> forall i :: 0 <= i < |s| && IsUnsafeRune(s[i]) ==> Removed(s, i)
    ensures Edit(s) == "" <==> AllSpace(s)
  {
    var t := ReplaceBreaks(ReplaceSpaces(s));
    forall i | 0 <= i < |s| {
      ReplacedAt(s, i);
    }
    ReplacedExposure(s, t);
    assert PlainSpaces(t);
    CollapseExposes(t, false);
    CollapseKeepsAllSpace(t);
    TrimSafeIff(Collapse(t));
  }

  // Exactly which text SanitizeName accepts.
  lemma AcceptedIff(nfc: Normalizer, s: string)
    ensures Sanitized(nfc, Text(s)).Ok? <==>
            && (forall i :: 0 <= i < |nfc(s)| && IsUnsafeRune(nfc(s)[i]) ==> Removed(nfc(s), i))
            && !AllSpace(nfc(s))
            && Utf8Length(Edit(nfc(s))) <= MAX_NAME_BYTES
  {
    EditIsSafeIff(nfc(s));
  }

  // Between two words neither end is white space, so a form feed goes only with another.
  lemma BetweenWords(x: string, feeds: string, y: string, i: nat)
    requires Word(x) && Word(y) && |feeds| > 0 && forall i :: 0 <= i < |feeds| ==> feeds[i] == '\U{C}'
    requires i < |x| + |feeds| + |y|
    ensures var s := x + (feeds + y);
            && (IsUnsafeRune(s[i]) <==> |x| <= i < |x| + |feeds|)
            && (IsUnsafeRune(s[i]) ==> (Removed(s, i) <==> |feeds| >= 2))
  {
    var s := x + (feeds + y);
    assert s[i] == if i < |x| then x[i] else if i < |x| + |feeds| then feeds[i - |x|] else y[i - |x| - |feeds|];
    assert s[..i + 1][0] == x[0] && s[i..][|s| - 1 - i] == y[|y| - 1];
    if |x| < i < |x| + |feeds| {
      assert s[i - 1] == feeds[i - 1 - |x|];
    }
    if |x| <= i < |x| + |feeds| - 1 {
      assert s[i + 1] == feeds[i + 1 - |x|];
    }
    assert s[|x| - 1] == x[|x| - 1] && s[|x| + |feeds|] == y[0];
  }

  lemma FeedsAreSafeIff(x: string, feeds: string, y: string)
    requires Word(x) && Word(y) && |feeds| > 0 && forall i :: 0 <= i < |feeds| ==> feeds[i] == '\U{C}'
    ensures Safe(Edit(x + (feeds + y))) <==> |feeds| >= 2
  {
    var s := x + (feeds + y);
    EditIsSafeIff(s);
    forall i | 0 <= i < |s| && IsUnsafeRune(s[i])
      ensures Removed(s, i) <==> |feeds| >= 2
    {
      BetweenWords(x, feeds, y, i);
    }
    BetweenWords(x, feeds, y, |x|);
  }

  // Between two words: one form feed is rejected, several are collapsed to a space.
  lemma FormFeeds(nfc: Normalizer, x: string, feeds: string, y: string)
    requires Word(x) && Word(y) && |feeds| > 0 && forall i :: 0 <= i < |feeds| ==> feeds[i] == '\U{C}'
    requires nfc(x + (feeds + y)) == x + (feeds + y) && Utf8Length(x + " " + y) <= MAX_NAME_BYTES
    ensures Sanitized(nfc, Text(x + (feeds + y))) == if |feeds| >= 2 then Ok(x + " " + y) else Err(ErrValidation)
  {
    FeedsAreSafeIff(x, feeds, y);
    EditFormFeeds(x, feeds, y);
    assert x + (" " + y) == x + " " + y;
  }
}
