// SanitizeName (internal/service/sanitize.go) on plain names, code point by code point.
module PlainNames {
  import opened Common
  import opened Sanitize
  import opened UnsafeRunes

  predicate Letters(w: string) {
    forall i :: 0 <= i < |w| ==> 'a' <= w[i] <= 'z'
  }

  // How many characters take at least two, three and four bytes.
  function From(s: string, least: char): nat {
    if |s| == 0 then 0 else (if s[0] >= least then 1 else 0) + From(s[1..], least)
  }

  lemma {:induction false} NameLength(s: string)
    ensures Utf8Length(s) == |s| + From(s, '\U{80}') + From(s, '\U{800}') + From(s, '\U{10000}')
  {
    if |s| > 0 {
      NameLength(s[1..]);
    }
  }

  lemma {:induction false} LettersAreShort(w: string, rest: string)
    requires Letters(w)
    ensures Utf8Length(w + rest) == |w| + Utf8Length(rest)
  {
    if |w| == 0 {
      assert w + rest == rest;
    } else {
      LettersAreShort(w[1..], rest);
      assert (w + rest)[1..] == w[1..] + rest;
    }
  }

  lemma OneRuneLength(c: char, w: string)
    requires Letters(w)
    ensures 1 + |w| <= Utf8Length([c] + w) <= 4 + |w|
  {
    assert ([c] + w)[1..] == w && w + "" == w;
    LettersAreShort(w, "");
  }

  function Spaced(c: char): char {
    if IsVariantSpace(c) || IsBreak(c) then ' ' else c
  }

  lemma Replaces(x: string, c: char, y: string)
    requires Letters(x) && Letters(y)
    ensures ReplaceBreaks(ReplaceSpaces(x + ([c] + y))) == x + ([Spaced(c)] + y)
  {
    var s, t := x + ([c] + y), x + ([Spaced(c)] + y);
    forall i | 0 <= i < |s|
      ensures ReplaceBreaks(ReplaceSpaces(s))[i] == t[i]
    {
      ReplacedAt(s, i);
      assert s[i] == if i < |x| then x[i] else if i == |x| then c else y[i - |x| - 1];
    }
  }

  lemma CollapsesNothing(x: string, d: char, y: string)
    requires Letters(x) && Letters(y)
    ensures Collapse(x + ([d] + y)) == x + ([d] + y)
  {
    var t := x + ([d] + y);
    forall i | 0 <= i < |t| - 1
      ensures !(IsRegexSpace(t[i]) && IsRegexSpace(t[i + 1]))
    {
      assert t[i] == if i < |x| then x[i] else if i == |x| then d else y[i - |x| - 1];
      assert i >= |x| ==> t[i + 1] == y[i - |x|];
    }
    CollapseFixes(t);
  }

  // The edits turn a listed white space character between two words into a space, and keep any other.
  lemma EditsOneRune(x: string, c: char, y: string)
    requires Letters(x) && Letters(y) && |x| > 0 && |y| > 0
    ensures Edit(x + ([c] + y)) == x + ([Spaced(c)] + y)
  {
    var t := x + ([Spaced(c)] + y);
    Replaces(x, c, y);
    CollapsesNothing(x, Spaced(c), y);
    EndsInWord(x, Spaced(c), y);
    EditsInStages(x + ([c] + y), t, t);
  }

  lemma EditsInStages(s: string, t: string, r: string)
    requires ReplaceBreaks(ReplaceSpaces(s)) == t && Collapse(t) == t && Trim(t) == r
    ensures Edit(s) == r
  {
  }

  lemma EndsInWord(x: string, d: char, y: string)
    requires Letters(x) && Letters(y) && |x| > 0 && |y| > 0
    ensures Trim(x + ([d] + y)) == x + ([d] + y)
  {
    var head := x + [d];
    assert head[0] == x[0] && x + ([d] + y) == head + y;
    LettersAreAWord(y);
    TrimsNothing(head, y);
  }

  lemma LettersAreAWord(y: string)
    requires Letters(y) && |y| > 0
    ensures Word(y)
  {
  }

  lemma SafeBetween(x: string, d: char, y: string)
    requires Letters(x) && Letters(y)
    ensures Safe(x + ([d] + y)) <==> !IsUnsafeRune(d)
  {
    var t := x + ([d] + y);
    assert t[|x|] == d;
    assert forall i :: 0 <= i < |t| ==> t[i] == if i < |x| then x[i] else if i == |x| then d else y[i - |x| - 1];
  }

  // Between two words of letters: white space that the pipeline lists becomes a space, a rune that it
  // rejects is rejected, and any other rune stays.
  lemma RuneBetweenWords(nfc: Normalizer, x: string, c: char, y: string)
    requires Letters(x) && Letters(y) && |x| > 0 && |y| > 0 && |x| + |y| <= 251
    requires nfc(x + ([c] + y)) == x + ([c] + y)
    ensures Sanitized(nfc, Text(x + ([c] + y)))
            == if c == '\t' || c == '\n' || c == '\r' || c == ' ' || c == '\U{A0}' || '\U{2000}' <= c <= '\U{200A}'
                  || c == '\U{2028}' || c == '\U{2029}' || c == '\U{202F}' || c == '\U{205F}' || c == '\U{3000}'
               then Ok(x + (" " + y))
               else if c < ' ' || '\U{7F}' <= c <= '\U{9F}' || '\U{200B}' <= c <= '\U{200F}'
                       || '\U{202A}' <= c <= '\U{202E}' || '\U{2066}' <= c <= '\U{2069}' || c == '\U{FEFF}'
                       || '\U{FFF9}' <= c <= '\U{FFFB}' || c == '\U{FFFD}' || '\U{E0001}' <= c <= '\U{E007F}'
               then Err(ErrValidation)
               else Ok(x + ([c] + y))
  {
    EditsOneRune(x, c, y);
    LettersAreShort(x, [Spaced(c)] + y);
    OneRuneLength(Spaced(c), y);
    SafeBetween(x, Spaced(c), y);
  }

  // A name of letters is accepted as it is when it has 1 to 255 of them.
  lemma LettersAreAccepted(nfc: Normalizer, x: string)
    requires Letters(x) && nfc(x) == x
    ensures Sanitized(nfc, Text(x)) == if 1 <= |x| <= 255 then Ok(x) else Err(ErrValidation)
  {
    LettersAreShort(x, "");
    assert x + "" == x;
    EditsLetters(x);
  }

  lemma EditsLetters(x: string)
    requires Letters(x)
    ensures Edit(x) == x
  {
    ReplaceNothing(x, IsVariantSpace);
    ReplaceNothing(x, IsBreak);
    CollapseFixes(x);
    if |x| > 0 {
      TrimAfterWord(x, "");
    }
  }

  lemma TrimsOne(d: char)
    ensures Trim([d]) == if IsSpace(d) then [] else [d]
  {
    assert [d][1..] == [] && TrimLeft([]) == [] && TrimRight([]) == [];
    assert [d][..0] == [];
  }

  lemma EditsRuneAlone(c: char)
    ensures Edit([c]) == if IsSpace(c) then [] else [c]
  {
    var d := Spaced(c);
    Replaces("", c, "");
    CollapsesNothing("", d, "");
    assert "" + ([c] + "") == [c] && "" + ([d] + "") == [d];
    TrimsOne(d);
    EditsInStages([c], [d], if IsSpace(d) then [] else [d]);
  }

  // A name of one rune is rejected exactly if the rune is white space or unsafe.
  lemma OneRune(nfc: Normalizer, c: char)
    requires nfc([c]) == [c]
    ensures Sanitized(nfc, Text([c]))
            == if c <= ' ' || '\U{7F}' <= c <= '\U{A0}' || c == '\U{1680}' || '\U{2000}' <= c <= '\U{200F}'
                  || '\U{2028}' <= c <= '\U{202F}' || c == '\U{205F}' || '\U{2066}' <= c <= '\U{2069}'
                  || c == '\U{3000}' || c == '\U{FEFF}' || '\U{FFF9}' <= c <= '\U{FFFB}' || c == '\U{FFFD}'
                  || '\U{E0001}' <= c <= '\U{E007F}'
               then Err(ErrValidation) else Ok([c])
  {
    EditsRuneAlone(c);
    OneRuneLength(c, "");
    assert [c] + "" == [c];
    assert Safe([c]) <==> !IsUnsafeRune([c][0]);
  }
}
