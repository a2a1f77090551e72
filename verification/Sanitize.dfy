// internal/service/sanitize.go: the name pipeline. NFC itself (section 1.2 of Unicode Standard
// Annex 15) is a parameter.
module Sanitize {
  import opened Common

  const MAX_NAME_BYTES := 255

  type Normalizer = string -> string

  // A Go string: text, or bytes that are not valid UTF-8.
  datatype Raw = Text(s: string) | InvalidUtf8

  // ---- Character classes ----

  // unicode.IsControl: category Cc
  predicate IsControl(c: char) {
    c <= '\U{1F}' || '\U{7F}' <= c <= '\U{9F}'
  }

  predicate IsUnsafeRune(c: char) {
    || (IsControl(c) && c != '\t' && c != '\n' && c != '\r')
    || '\U{200B}' <= c <= '\U{200F}'
    || c == '\U{FEFF}'
    || '\U{202A}' <= c <= '\U{202E}'
    || '\U{2066}' <= c <= '\U{2069}'
    || '\U{FFF9}' <= c <= '\U{FFFB}'
    || c == '\U{FFFD}'
    || '\U{E0001}' <= c <= '\U{E007F}'
  }

  // The unicodeWhitespace expression.
  predicate IsVariantSpace(c: char) {
    || c == '\U{A0}'
    || '\U{2000}' <= c <= '\U{200A}'
    || c == '\U{2028}' || c == '\U{2029}' || c == '\U{202F}' || c == '\U{205F}' || c == '\U{3000}'
  }

  predicate IsBreak(c: char) {
    c == '\t' || c == '\n' || c == '\r'
  }

  // \s in a Go regular expression: no vertical tab, but form feed.
  predicate IsRegexSpace(c: char) {
    IsBreak(c) || c == ' ' || c == '\U{C}'
  }

  // unicode.IsSpace, which TrimSpace uses.
  predicate IsSpace(c: char) {
    || '\t' <= c <= '\r' || c == ' ' || c == '\U{85}' || c == '\U{1680}' || IsVariantSpace(c)
  }

  // ---- Stages ----

  function ReplaceAll(s: string, from: char -> bool): string {
    seq(|s|, i requires 0 <= i < |s| => if from(s[i]) then ' ' else s[i])
  }

  function ReplaceSpaces(s: string): string {
    ReplaceAll(s, IsVariantSpace)
  }

  function ReplaceBreaks(s: string): string {
    ReplaceAll(s, IsBreak)
  }

  // The number of leading characters of class p.
  function Leading(s: string, p: char -> bool): (n: nat)
    ensures n <= |s|
    ensures forall i :: 0 <= i < n ==> p(s[i])
    ensures n < |s| ==> !p(s[n])
  {
    if |s| == 0 || !p(s[0]) then 0 else 1 + Leading(s[1..], p)
  }

  // \s{2,} replaced by one space; a single \s stays as it is.
  function Collapse(s: string): string
    decreases |s|
  {
    if |s| == 0 then []
    else if !IsRegexSpace(s[0]) then [s[0]] + Collapse(s[1..])
    else
      var n := Leading(s, IsRegexSpace);
      (if n >= 2 then " " else [s[0]]) + Collapse(s[n..])
  }

  function TrimLeft(s: string): string {
    if |s| > 0 && IsSpace(s[0]) then TrimLeft(s[1..]) else s
  }

  function TrimRight(s: string): string {
    if |s| > 0 && IsSpace(s[|s| - 1]) then TrimRight(s[..|s| - 1]) else s
  }

  function Trim(s: string): string {
    TrimRight(TrimLeft(s))
  }

  function Utf8Length(s: string): nat {
    if |s| == 0 then 0
    else (if s[0] < '\U{80}' then 1 else if s[0] < '\U{800}' then 2 else if s[0] < '\U{10000}' then 3 else 4)
         + Utf8Length(s[1..])
  }

  // Steps 3 to 6.
  function Edit(s: string): string {
    Trim(Collapse(ReplaceBreaks(ReplaceSpaces(s))))
  }

  predicate Safe(s: string) {
    forall i :: 0 <= i < |s| ==> !IsUnsafeRune(s[i])
  }

  function Sanitized(nfc: Normalizer, raw: Raw): Result<string, Error> {
    if raw.InvalidUtf8? then Err(ErrValidation)
    else
      var s := Edit(nfc(raw.s));
      if Safe(s) && s != "" && Utf8Length(s) <= MAX_NAME_BYTES then Ok(s) else Err(ErrValidation)
  }

  method SanitizeName(nfc: Normalizer, raw: Raw) returns (r: Result<string, Error>)
    ensures r == Sanitized(nfc, raw)
  {
    if raw.InvalidUtf8? {
      return Err(ErrValidation);
    }
    var s := nfc(raw.s);
    s := ReplaceSpaces(s);
    s := ReplaceBreaks(s);
    s := Collapse(s);
    s := Trim(s);
    for i := 0 to |s|
      invariant forall j :: 0 <= j < i ==> !IsUnsafeRune(s[j])
    {
      if IsUnsafeRune(s[i]) {
        return Err(ErrValidation);
      }
    }
    if s == "" {
      return Err(ErrValidation);
    }
    if Utf8Length(s) > MAX_NAME_BYTES {
      return Err(ErrValidation);
    }
    return Ok(s);
  }

  // ---- Hypotheses on NFC ----

  // It is idempotent, and the whitespace edits leave normalised text normalised.
  ghost predicate NormalizerOk(nfc: Normalizer) {
    && (forall s :: nfc(nfc(s)) == nfc(s))
    && (forall s :: nfc(s) == s ==> nfc(Edit(s)) == Edit(s))
  }

  // ---- Normal form ----

  predicate NoDoubleSpace(s: string) {
    forall i :: 0 <= i < |s| - 1 ==> !(IsRegexSpace(s[i]) && IsRegexSpace(s[i + 1]))
  }

  predicate Trimmed(s: string) {
    |s| > 0 ==> !IsSpace(s[0]) && !IsSpace(s[|s| - 1])
  }

  // Only the plain space and unlisted characters are left.
  predicate PlainSpaces(s: string) {
    forall i :: 0 <= i < |s| ==> !IsVariantSpace(s[i]) && !IsBreak(s[i])
  }

  ghost predicate Canonical(nfc: Normalizer, s: string) {
    && nfc(s) == s
    && Safe(s) && PlainSpaces(s) && NoDoubleSpace(s) && Trimmed(s)
    && s != "" && Utf8Length(s) <= MAX_NAME_BYTES
  }

  lemma {:induction false} CollapseShape(s: string)
    requires PlainSpaces(s)
    ensures PlainSpaces(Collapse(s)) && NoDoubleSpace(Collapse(s))
    ensures |s| > 0 ==> |Collapse(s)| > 0 && (IsRegexSpace(Collapse(s)[0]) <==> IsRegexSpace(s[0]))
    decreases |s|
  {
    if |s| > 0 {
      if !IsRegexSpace(s[0]) {
        CollapseShape(s[1..]);
      } else {
        CollapseShape(s[Leading(s, IsRegexSpace)..]);
      }
    }
  }

  lemma {:induction false} CollapseFixes(s: string)
    requires NoDoubleSpace(s)
    ensures Collapse(s) == s
    decreases |s|
  {
    if |s| > 0 {
      assert NoDoubleSpace(s[1..]) by {
        forall i | 0 <= i < |s[1..]| - 1
          ensures !(IsRegexSpace(s[1..][i]) && IsRegexSpace(s[1..][i + 1]))
        {
          assert s[1..][i] == s[i + 1] && s[1..][i + 1] == s[i + 2];
        }
      }
      CollapseFixes(s[1..]);
      assert |s| > 1 ==> !(IsRegexSpace(s[0]) && IsRegexSpace(s[0 + 1]));
    }
  }

  // Trimming takes a substring whose ends are not space.
  lemma {:induction false} TrimLeftShape(s: string) returns (k: nat)
    ensures k <= |s| && TrimLeft(s) == s[k..]
    ensures k < |s| ==> !IsSpace(s[k])
  {
    if |s| > 0 && IsSpace(s[0]) {
      var k' := TrimLeftShape(s[1..]);
      k := k' + 1;
    } else {
      k := 0;
    }
  }

  lemma {:induction false} TrimRightShape(s: string) returns (k: nat)
    ensures k <= |s| && TrimRight(s) == s[..k]
    ensures k > 0 ==> !IsSpace(s[k - 1])
  {
    if |s| > 0 && IsSpace(s[|s| - 1]) {
      k := TrimRightShape(s[..|s| - 1]);
      assert s[..|s| - 1][..k] == s[..k];
    } else {
      k := |s|;
    }
  }

  lemma TrimShape(s: string) returns (a: nat, b: nat)
    ensures a <= b <= |s| && Trim(s) == s[a..b] && Trimmed(Trim(s))
  {
    a := TrimLeftShape(s);
    var k := TrimRightShape(s[a..]);
    b := a + k;
    assert s[a..][..k] == s[a..b];
    assert k > 0 ==> s[a..b][0] == s[a] && s[a..b][k - 1] == s[a..][k - 1];
  }

  lemma EditShape(s: string)
    ensures PlainSpaces(Edit(s)) && NoDoubleSpace(Edit(s)) && Trimmed(Edit(s))
  {
    var t := ReplaceBreaks(ReplaceSpaces(s));
    CollapseShape(t);
    var c := Collapse(t);
    var a, b := TrimShape(c);
    assert Trim(c) == c[a..b];
    forall i | 0 <= i < |c[a..b]| - 1
      ensures !(IsRegexSpace(c[a..b][i]) && IsRegexSpace(c[a..b][i + 1]))
    {
      assert c[a..b][i] == c[a + i] && c[a..b][i + 1] == c[a + i + 1];
    }
  }

  // Whatever SanitizeName accepts is in normal form,
  lemma AcceptedIsCanonical(nfc: Normalizer, raw: Raw)
    requires NormalizerOk(nfc) && Sanitized(nfc, raw).Ok?
    ensures Canonical(nfc, Sanitized(nfc, raw).value)
  {
    EditShape(nfc(raw.s));
  }

  // and a name in normal form is returned as it is: the accepted outputs are exactly the
  // canonical names, each a fixed point.
  lemma CanonicalIsFixed(nfc: Normalizer, s: string)
    requires Canonical(nfc, s)
    ensures Sanitized(nfc, Text(s)) == Ok(s)
  {
    assert ReplaceSpaces(s) == s;
    assert ReplaceBreaks(s) == s;
    CollapseFixes(s);
  }

  lemma Idempotent(nfc: Normalizer, raw: Raw)
    requires NormalizerOk(nfc) && Sanitized(nfc, raw).Ok?
    ensures Sanitized(nfc, Text(Sanitized(nfc, raw).value)) == Sanitized(nfc, raw)
  {
    AcceptedIsCanonical(nfc, raw);
    CanonicalIsFixed(nfc, Sanitized(nfc, raw).value);
  }

  // ---- What the pipeline does to ordinary text: split on whitespace, join with single spaces ----

  predicate NotSpace(c: char) {
    !IsSpace(c)
  }

  // strings.Fields
  function Fields(s: string): seq<string>
    decreases |s|
  {
    if |s| == 0 then []
    else if IsSpace(s[0]) then Fields(s[1..])
    else
      var n := Leading(s, NotSpace);
      if n == 0 then [] else [s[..n]] + Fields(s[n..])
  }

  function Join(words: seq<string>): string {
    if |words| == 0 then ""
    else if |words| == 1 then words[0]
    else words[0] + " " + Join(words[1..])
  }

  // Text whose only whitespace is the plain space.
  predicate SpacedPlainly(t: string) {
    forall i :: 0 <= i < |t| && IsSpace(t[i]) ==> t[i] == ' '
  }

  lemma {:induction false} CollapseWord(w: string, rest: string)
    requires forall i :: 0 <= i < |w| ==> !IsRegexSpace(w[i])
    ensures Collapse(w + rest) == w + Collapse(rest)
  {
    if |w| == 0 {
      assert w + rest == rest;
    } else {
      CollapseWord(w[1..], rest);
      assert (w + rest)[1..] == w[1..] + rest;
    }
  }

  lemma {:induction false} FieldsSkip(t: string, n: nat)
    requires n <= |t| && forall i :: 0 <= i < n ==> IsSpace(t[i])
    ensures Fields(t) == Fields(t[n..])
  {
    if n > 0 {
      FieldsSkip(t[1..], n - 1);
      assert t[1..][n - 1..] == t[n..];
    } else {
      assert t[0..] == t;
    }
  }

  lemma {:induction false} TrimRightKeepsHead(a: string, b: string)
    requires |b| > 0 && !IsSpace(b[0])
    ensures TrimRight(a + b) == a + TrimRight(b) && |TrimRight(b)| > 0
  {
    var n := |b| - 1;
    if IsSpace(b[n]) {
      TrimRightKeepsHead(a, b[..n]);
      assert (a + b)[..|a + b| - 1] == a + b[..n];
    }
  }

  lemma TrimAfterWord(w: string, u: string)
    requires |w| > 0 && forall i :: 0 <= i < |w| ==> !IsSpace(w[i])
    requires |u| > 0 ==> !IsSpace(u[0])
    ensures Trim(w) == w
    ensures Trim(w + " " + u) == if u == "" then w else w + " " + Trim(u)
  {
    if u == "" {
      assert (w + " " + u)[..|w|] == w;
    } else {
      TrimRightKeepsHead(w + " ", u);
    }
  }

  lemma CollapseSpaces(t: string)
    requires SpacedPlainly(t) && |t| > 0 && IsSpace(t[0])
    ensures var n := Leading(t, IsRegexSpace);
            && n > 0
            && Collapse(t) == " " + Collapse(t[n..])
            && Fields(t) == Fields(t[n..])
            && SpacedPlainly(t[n..])
            && (|t[n..]| > 0 ==> !IsSpace(t[n..][0]) && |Collapse(t[n..])| > 0 && Collapse(t[n..])[0] == t[n..][0])
  {
    var n := Leading(t, IsRegexSpace);
    assert t[0] == ' ' && [t[0]] == " ";
    FieldsSkip(t, n);
    if |t[n..]| > 0 {
      assert t[n..][0] == t[n];
    }
  }

  lemma JoinCons(w: string, words: seq<string>)
    ensures Join([w] + words) == if words == [] then w else w + " " + Join(words)
  {
    assert ([w] + words)[1..] == words;
  }

  // One word and the whitespace after it.
  lemma AfterWord(w: string, rest: string)
    requires |w| > 0 && |rest| > 0 && SpacedPlainly(rest) && IsSpace(rest[0])
    requires forall i :: 0 <= i < |w| ==> !IsSpace(w[i])
    ensures var next := rest[Leading(rest, IsRegexSpace)..];
            && |next| < |rest| && SpacedPlainly(next)
            && Fields(rest) == Fields(next)
            && (|next| == 0 <==> Fields(next) == [])
            && Trim(Collapse(w + rest)) == if |next| == 0 then w else w + " " + Trim(Collapse(next))
  {
    CollapseSpaces(rest);
    var next := rest[Leading(rest, IsRegexSpace)..];
    CollapseWord(w, rest);
    assert w + (" " + Collapse(next)) == w + " " + Collapse(next);
    TrimAfterWord(w, Collapse(next));
  }

  lemma FieldsOfWord(t: string)
    requires |t| > 0 && !IsSpace(t[0])
    ensures var n := Leading(t, NotSpace);
            n > 0 && Fields(t) == [t[..n]] + Fields(t[n..])
  {
  }

  lemma {:induction false} CollapseThenTrim(t: string)
    requires SpacedPlainly(t)
    ensures Trim(Collapse(t)) == Join(Fields(t))
    decreases |t|
  {
    if |t| == 0 {
    } else if IsSpace(t[0]) {
      CollapseSpaces(t);
      var rest := t[Leading(t, IsRegexSpace)..];
      CollapseThenTrim(rest);
      assert (" " + Collapse(rest))[1..] == Collapse(rest);
    } else {
      FieldsOfWord(t);
      var n := Leading(t, NotSpace);
      var w, rest := t[..n], t[n..];
      assert t == w + rest;
      JoinCons(w, Fields(rest));
      if |rest| == 0 {
        CollapseWord(w, rest);
        TrimAfterWord(w, "");
        assert w + Collapse(rest) == w;
      } else {
        AfterWord(w, rest);
        CollapseThenTrim(rest[Leading(rest, IsRegexSpace)..]);
      }
    }
  }

  // Same word characters in the same places, whitespace elsewhere.
  predicate SameWords(s: string, t: string) {
    |s| == |t| && forall i :: 0 <= i < |s| ==> (IsSpace(s[i]) <==> IsSpace(t[i])) && (!IsSpace(s[i]) ==> s[i] == t[i])
  }

  lemma {:induction false} SameLeading(s: string, t: string)
    requires SameWords(s, t)
    ensures Leading(s, NotSpace) == Leading(t, NotSpace)
  {
    if |s| > 0 && NotSpace(s[0]) {
      SameLeading(s[1..], t[1..]);
    }
  }

  lemma {:induction false} SameFields(s: string, t: string)
    requires SameWords(s, t)
    ensures Fields(s) == Fields(t)
    decreases |s|
  {
    if |s| > 0 {
      if IsSpace(s[0]) {
        SameFields(s[1..], t[1..]);
      } else {
        SameLeading(s, t);
        var n := Leading(s, NotSpace);
        assert s[..n] == t[..n];
        SameFields(s[n..], t[n..]);
      }
    }
  }

  // U+1680 is the one whitespace character that the edits do not rewrite and IsUnsafeRune passes.
  predicate NoOghamSpace(s: string) {
    forall i :: 0 <= i < |s| ==> s[i] != '\U{1680}'
  }

  lemma EditSplitsAndJoins(s: string)
    requires Safe(s) && NoOghamSpace(s)
    ensures Edit(s) == Join(Fields(s))
  {
    var t := ReplaceBreaks(ReplaceSpaces(s));
    forall i | 0 <= i < |s|
      ensures t[i] == if IsVariantSpace(s[i]) || IsBreak(s[i]) then ' ' else s[i]
    {
      assert ReplaceSpaces(s)[i] == if IsVariantSpace(s[i]) then ' ' else s[i];
    }
    SameFields(s, t);
    CollapseThenTrim(t);
  }

  lemma {:induction false} CollapseKeepsSafe(s: string)
    requires Safe(s)
    ensures Safe(Collapse(s))
    decreases |s|
  {
    if |s| > 0 {
      CollapseKeepsSafe(if IsRegexSpace(s[0]) then s[Leading(s, IsRegexSpace)..] else s[1..]);
    }
  }

  lemma EditKeepsSafe(s: string)
    requires Safe(s)
    ensures Safe(Edit(s))
  {
    CollapseKeepsSafe(ReplaceBreaks(ReplaceSpaces(s)));
    var a, b := TrimShape(Collapse(ReplaceBreaks(ReplaceSpaces(s))));
  }

  // For normalised text free of unsafe characters, SanitizeName is: split on whitespace, join
  // with single spaces, reject the empty and the too long.
  lemma OrdinaryText(nfc: Normalizer, s: string)
    requires nfc(s) == s && Safe(s) && NoOghamSpace(s)
    ensures Sanitized(nfc, Text(s)) ==
            var joined := Join(Fields(s));
            if joined != "" && Utf8Length(joined) <= MAX_NAME_BYTES then Ok(joined) else Err(ErrValidation)
  {
    EditSplitsAndJoins(s);
    EditKeepsSafe(s);
  }

  lemma ReplaceNothing(s: string, p: char -> bool)
    requires forall i :: 0 <= i < |s| ==> !p(s[i])
    ensures ReplaceAll(s, p) == s
  {
  }

  predicate Word(w: string) {
    |w| > 0 && Safe(w) && forall i :: 0 <= i < |w| ==> !IsSpace(w[i])
  }

  lemma {:induction false} LeadingRun(run: string, y: string)
    requires forall i :: 0 <= i < |run| ==> IsRegexSpace(run[i])
    requires |y| > 0 && !IsRegexSpace(y[0])
    ensures Leading(run + y, IsRegexSpace) == |run|
  {
    if |run| == 0 {
      assert run + y == y;
    } else {
      LeadingRun(run[1..], y);
      assert (run + y)[1..] == run[1..] + y;
    }
  }

  // A form feed is neither a variant space nor a break, so only Collapse can touch it.
  lemma CollapseFormFeeds(x: string, feeds: string, y: string)
    requires Word(x) && Word(y) && |feeds| > 0 && forall i :: 0 <= i < |feeds| ==> feeds[i] == '\U{C}'
    ensures Collapse(ReplaceBreaks(ReplaceSpaces(x + (feeds + y)))) == x + ((if |feeds| >= 2 then " " else feeds) + y)
  {
    var s := x + (feeds + y);
    ReplaceNothing(s, IsVariantSpace);
    ReplaceNothing(s, IsBreak);
    CollapseWord(x, feeds + y);
    LeadingRun(feeds, y);
    assert (feeds + y)[|feeds|..] == y && (|feeds| == 1 ==> [(feeds + y)[0]] == feeds);
    CollapseFixes(y);
  }

  lemma TrimsNothing(x: string, y: string)
    requires Word(y) && |x| > 0 && !IsSpace(x[0])
    ensures Trim(x + y) == x + y
  {
    TrimRightKeepsHead(x, y);
    TrimAfterWord(y, "");
  }

  // The gap that is left of the form feeds survives trimming.
  lemma EditFormFeeds(x: string, feeds: string, y: string)
    requires Word(x) && Word(y) && |feeds| > 0 && forall i :: 0 <= i < |feeds| ==> feeds[i] == '\U{C}'
    ensures Edit(x + (feeds + y)) == x + ((if |feeds| >= 2 then " " else feeds) + y)
  {
    CollapseFormFeeds(x, feeds, y);
    var gap := if |feeds| >= 2 then " " else feeds;
    assert x + (gap + y) == x + gap + y;
    TrimsNothing(x + gap, y);
  }
}
