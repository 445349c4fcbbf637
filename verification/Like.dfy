/** SQL LIKE patterns: % matches any text, _ any one character, and \ takes the next character as it is. */
module LikePatterns {
  predicate Wildcard(c: char) {
    c == '%' || c == '_' || c == '\\'
  }

  predicate Plain(s: string) {
    forall i | 0 <= i < |s| :: !Wildcard(s[i])
  }

  predicate Like(pattern: string, text: string)
    decreases |pattern| + |text|
  {
    if pattern == [] then text == []
    else if pattern[0] == '%' then
      Like(pattern[1..], text) || (text != [] && Like(pattern, text[1..]))
    else if text == [] then false
    else if pattern[0] == '_' then Like(pattern[1..], text[1..])
    else if pattern[0] == '\\' && |pattern| > 1 then pattern[1] == text[0] && Like(pattern[2..], text[1..])
    else pattern[0] == text[0] && Like(pattern[1..], text[1..])
  }

  function Fold(fold: char -> char, s: string): (r: string)
    ensures |r| == |s|
  {
    seq(|s|, i requires 0 <= i < |s| => fold(s[i]))
  }

  /** Case folding neither makes nor unmakes a wildcard. */
  ghost predicate KeepsWildcards(fold: char -> char) {
    forall c :: Wildcard(c) || Wildcard(fold(c)) ==> fold(c) == c
  }

  predicate ILike(fold: char -> char, pattern: string, text: string) {
    Like(Fold(fold, pattern), Fold(fold, text))
  }

  ghost predicate Contains(text: string, s: string) {
    exists i :: 0 <= i <= |text| && s <= text[i..]
  }

  lemma {:induction false} LikeAnything(text: string)
    ensures Like("%", text)
  {
    if text != [] {
      LikeAnything(text[1..]);
    }
    assert text == [] ==> Like("%"[1..], text);
  }

  lemma {:induction false} LikePrefix(s: string, text: string)
    requires Plain(s)
    ensures Like(s + "%", text) <==> s <= text
    decreases |s| + |text|
  {
    if s == [] {
      assert s + "%" == "%";
      LikeAnything(text);
    } else if text != [] {
      assert (s + "%")[1..] == s[1..] + "%";
      assert !Wildcard(s[0]) && (s + "%")[0] == s[0];
      assert Plain(s[1..]) by { assert forall i | 0 <= i < |s[1..]| :: s[1..][i] == s[i + 1]; }
      LikePrefix(s[1..], text[1..]);
      assert s == [s[0]] + s[1..] && text == [text[0]] + text[1..];
    }
  }

  lemma {:induction false} LikeContains(s: string, text: string)
    requires Plain(s)
    ensures Like("%" + s + "%", text) <==> Contains(text, s)
    decreases |text|
  {
    var pattern := "%" + s + "%";
    assert pattern[1..] == s + "%";
    LikePrefix(s, text);
    assert text[0..] == text;
    if text != [] {
      LikeContains(s, text[1..]);
      assert forall i | 1 <= i <= |text| :: text[i..] == text[1..][i - 1..];
      if i :| 0 <= i <= |text[1..]| && s <= text[1..][i..] {
        assert text[i + 1..] == text[1..][i..];
      }
    }
  }

  /** A pattern made of a text without wildcards between two % means case-insensitive substring. */
  lemma {:induction false} ILikeIsSubstring(fold: char -> char, s: string, text: string)
    requires KeepsWildcards(fold) && Plain(s)
    ensures ILike(fold, "%" + s + "%", text) <==> Contains(Fold(fold, text), Fold(fold, s))
  {
    assert Wildcard('%');
    assert Fold(fold, "%" + s + "%") == "%" + Fold(fold, s) + "%";
    LikeContains(Fold(fold, s), Fold(fold, text));
  }

  // Without that condition it is not a substring test.

  /** The first name "_" lists everybody with a first name, with or without an underscore in it. */
  lemma {:induction false} UnderscoreMatchesAnything(fold: char -> char, text: string)
    requires KeepsWildcards(fold) && text != [] && '_' !in Fold(fold, text)
    ensures ILike(fold, "%_%", text) && !Contains(Fold(fold, text), Fold(fold, "_"))
  {
    var pattern, folded := Fold(fold, "%_%"), Fold(fold, text);
    assert Wildcard('%') && Wildcard('_');
    assert pattern == "%_%" && Fold(fold, "_") == "_";
    assert "%_%"[1..] == "_%" && "_%"[1..] == "%";
    LikeAnything(folded[1..]);
    assert Like("_%", folded);
    forall i | 0 <= i <= |folded| ensures !("_" <= folded[i..]) {
      assert i < |folded| ==> folded[i..][0] == folded[i];
    }
  }

  /** A text that the pattern of s accepts: any characters dropped, one character filled in, escapes taken
      literally. An escape at the end of s takes the % that follows it. */
  function Accepted(s: string): string {
    if s == [] then []
    else if s[0] == '%' then Accepted(s[1..])
    else if s[0] == '_' then ['a'] + Accepted(s[1..])
    else if s == "\\" then "%"
    else if s[0] == '\\' then [s[1]] + Accepted(s[2..])
    else [s[0]] + Accepted(s[1..])
  }

  lemma {:induction false} FoldCons(fold: char -> char, c: char, s: string)
    ensures Fold(fold, [c] + s) == [fold(c)] + Fold(fold, s)
  {
  }

  lemma {:induction false} LikeLiteral(c: char, pattern: string, text: string)
    requires !Wildcard(c)
    ensures Like([c] + pattern, [c] + text) <==> Like(pattern, text)
  {
    assert ([c] + pattern)[1..] == pattern && ([c] + text)[1..] == text;
  }

  lemma {:induction false} LikeEscape(c: char, pattern: string, text: string)
    ensures Like(['\\', c] + pattern, [c] + text) <==> Like(pattern, text)
  {
    assert (['\\', c] + pattern)[2..] == pattern && ([c] + text)[1..] == text;
  }

  lemma {:induction false} StepMatches(fold: char -> char, c: char, pattern: string, rest: string)
    requires KeepsWildcards(fold) && c != '\\' && Like(pattern, Fold(fold, rest))
    ensures Like([fold(c)] + pattern,
                 Fold(fold, if c == '%' then rest else if c == '_' then ['a'] + rest else [c] + rest))
  {
    assert Wildcard(c) || Wildcard(fold(c)) ==> fold(c) == c;
    assert ([fold(c)] + pattern)[1..] == pattern;
    if c == '_' {
      FoldCons(fold, 'a', rest);
      assert ([fold('a')] + Fold(fold, rest))[1..] == Fold(fold, rest);
    } else if c != '%' {
      FoldCons(fold, c, rest);
      LikeLiteral(fold(c), pattern, Fold(fold, rest));
    }
  }

  lemma {:induction false} AcceptedMatches(fold: char -> char, s: string)
    requires KeepsWildcards(fold)
    ensures Like(Fold(fold, s) + "%", Fold(fold, Accepted(s)))
    decreases |s|
  {
    if s == [] {
      assert Fold(fold, s) + "%" == "%" && Fold(fold, Accepted(s)) == [];
      LikeAnything([]);
    } else if s == "\\" {
      assert Wildcard('\\') && Wildcard('%');
      assert Fold(fold, s) + "%" == ['\\', '%'] + [] && Fold(fold, Accepted(s)) == ['%'] + [];
      LikeEscape('%', [], []);
    } else {
      assert Wildcard(s[0]) ==> fold(s[0]) == s[0];
      var n := if s[0] == '\\' then 2 else 1;
      AcceptedMatches(fold, s[n..]);
      var pattern, text := Fold(fold, s[n..]) + "%", Fold(fold, Accepted(s[n..]));
      if s[0] == '\\' {
        assert Fold(fold, s) + "%" == ['\\', fold(s[1])] + pattern;
        FoldCons(fold, s[1], Accepted(s[2..]));
        LikeEscape(fold(s[1]), pattern, text);
      } else {
        assert Fold(fold, s) + "%" == [fold(s[0])] + pattern;
        StepMatches(fold, s[0], pattern, Accepted(s[1..]));
      }
    }
  }

  lemma {:induction false} PlainCons(s: string)
    requires s != []
    ensures Plain(s) <==> !Wildcard(s[0]) && Plain(s[1..])
  {
    assert forall i | 1 <= i < |s| :: s[i] == s[1..][i - 1];
  }

  lemma {:induction false} AcceptedDiffers(fold: char -> char, s: string)
    requires KeepsWildcards(fold)
    ensures |Accepted(s)| <= |s|
    ensures !Plain(s) ==> Fold(fold, Accepted(s)) != Fold(fold, s)
    decreases |s|
  {
    if s != [] && s != "\\" {
      var n := if s[0] == '\\' then 2 else 1;
      AcceptedDiffers(fold, s[n..]);
      if s[0] == '_' || !Wildcard(s[0]) {
        var tail := Accepted(s[1..]);
        assert s == [s[0]] + s[1..];
        FoldCons(fold, s[0], s[1..]);
        FoldCons(fold, Accepted(s)[0], tail);
        assert Wildcard('_') && Wildcard(fold('a')) ==> fold('a') == 'a';
        assert Fold(fold, Accepted(s))[0] == fold(Accepted(s)[0]);
        assert Fold(fold, Accepted(s))[1..] == Fold(fold, tail) && Fold(fold, s)[1..] == Fold(fold, s[1..]);
        PlainCons(s);
      }
    } else if s == "\\" {
      assert Wildcard('%') && Wildcard('\\');
      assert Fold(fold, Accepted(s))[0] == '%' && Fold(fold, s)[0] == '\\';
    }
  }

  lemma {:induction false} ContainedIsNoLonger(text: string, s: string)
    requires |text| <= |s|
    ensures Contains(text, s) ==> text == s
  {
    assert text[0..] == text;
  }

  /** The filter is a case-insensitive substring test if and only if the given text holds no wildcard and no
      escape character. */
  lemma {:induction false} ILikeIsSubstringIff(fold: char -> char, s: string)
    requires KeepsWildcards(fold)
    ensures (forall text :: ILike(fold, "%" + s + "%", text) <==> Contains(Fold(fold, text), Fold(fold, s)))
            <==> Plain(s)
  {
    if Plain(s) {
      forall text ensures ILike(fold, "%" + s + "%", text) <==> Contains(Fold(fold, text), Fold(fold, s)) {
        ILikeIsSubstring(fold, s, text);
      }
    } else {
      var text := Accepted(s);
      AcceptedMatches(fold, s);
      AcceptedDiffers(fold, s);
      assert Wildcard('%');
      var pattern := Fold(fold, "%" + s + "%");
      assert pattern[0] == '%' && pattern[1..] == Fold(fold, s) + "%";
      assert ILike(fold, "%" + s + "%", text);
      ContainedIsNoLonger(Fold(fold, text), Fold(fold, s));
    }
  }
}
