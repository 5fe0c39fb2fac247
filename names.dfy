/**
 * `normalize_country`: strip, drop one leading article "the " (in any case), title-case.
 */
module Names {
  import opened Strings

  /** `name.lower().startswith("the ")`. */
  predicate StartsWithThe(s: string) {
    |s| >= 4 && LowerStr(s[..4]) == "the "
  }

  /** The stripped name without its leading article: what gets title-cased. */
  function Stem(name: string): (u: string)
    ensures |u| <= |Strip(name)|
    ensures u == Strip(name)[|Strip(name)| - |u|..]
  {
    var s := Strip(name);
    if StartsWithThe(s) then s[4..] else s
  }

  /**
   * The normalised name is title-cased and equals, up to letter case, the stripped name with
   * one leading "the " removed.
   */
  function NormalizeCountry(name: string): (r: string)
    ensures Title(r) == r
    ensures LowerStr(r) == LowerStr(Stem(name))
    ensures |r| <= |name|
  {
    var u := Stem(name);
    TitleIdempotent(u);
    TitleKeepsLetters(u);
    Title(u)
  }

  /** Those two properties pin the result down: nothing else is title-cased and equal up to case. */
  lemma NormalizeCountryUnique(name: string, x: string)
    requires Title(x) == x && LowerStr(x) == LowerStr(Stem(name))
    ensures x == NormalizeCountry(name)
  {
    TitleIgnoresCase(x, Stem(name));
  }

  /** A name without outer whitespace that starts with the article is title-cased after it. */
  lemma NormalizeArticle(name: string)
    requires NoOuterSpace(name) && StartsWithThe(name)
    ensures NormalizeCountry(name) == Title(name[4..])
  {
  }

  /** A name without outer whitespace or article is only title-cased. */
  lemma NormalizeNoArticle(name: string)
    requires NoOuterSpace(name) && !StartsWithThe(name)
    ensures NormalizeCountry(name) == Title(name)
  {
  }

  /** `str.title` on the stems of the examples below. */
  lemma TitleBahamas()
    ensures Title("Bahamas") == "Bahamas"
  {
    var s := "Bahamas";
    forall i | 0 <= i < |s| ensures Title(s)[i] == s[i] {
      assert Title(s)[i] == TitleAt(s, i);
    }
  }

  lemma TitleGambia()
    ensures Title("GAMBIA") == "Gambia"
  {
    var s, t := "GAMBIA", "Gambia";
    forall i | 0 <= i < |s| ensures Title(s)[i] == t[i] {
      assert Title(s)[i] == TitleAt(s, i);
    }
  }

  lemma TitleChad()
    ensures Title("chad") == "Chad"
    ensures Title(" chad") == " Chad"
  {
    var s, t := "chad", "Chad";
    forall i | 0 <= i < |s| ensures Title(s)[i] == t[i] {
      assert Title(s)[i] == TitleAt(s, i);
    }
    var s', t' := " chad", " Chad";
    forall i | 0 <= i < |s'| ensures Title(s')[i] == t'[i] {
      assert Title(s')[i] == TitleAt(s', i);
    }
  }

  /** `str.strip` removes whitespace at both ends. */
  lemma StripExample()
    ensures Strip("  chad ") == "chad"
    ensures Strip(" Chad") == "Chad"
  {
    StripBoth();
    StripLeading();
  }

  lemma StripBoth()
    ensures Strip("  chad ") == "chad"
  {
    StripSkip("  chad ", 2, 1);
    assert "  chad "[2..6] == "chad";
  }

  lemma StripLeading()
    ensures Strip(" Chad") == "Chad"
  {
    TrimLeftSkip(" Chad", 1);
    assert " Chad"[1..] == "Chad";
  }

  /** The article in the spellings of the examples, lowered. */
  lemma LowerArticles()
    ensures LowerStr("The ") == "the "
    ensures LowerStr("THE ") == "the "
    ensures LowerStr("the ") == "the "
  {
    var a, b, c, l := "The ", "THE ", "the ", "the ";
    forall i | 0 <= i < 4 ensures LowerStr(a)[i] == l[i] && LowerStr(b)[i] == l[i] && LowerStr(c)[i] == l[i] {
    }
  }

  lemma ExampleBahamas()
    ensures NormalizeCountry("The Bahamas") == "Bahamas"
  {
    LowerArticles();
    assert "The Bahamas"[..4] == "The ";
    NormalizeArticle("The Bahamas");
    assert "The Bahamas"[4..] == "Bahamas";
    TitleBahamas();
  }

  lemma ExampleGambia()
    ensures NormalizeCountry("THE GAMBIA") == "Gambia"
  {
    LowerArticles();
    assert "THE GAMBIA"[..4] == "THE ";
    NormalizeArticle("THE GAMBIA");
    assert "THE GAMBIA"[4..] == "GAMBIA";
    TitleGambia();
  }

  /** Surrounding whitespace does not change the normalised name. */
  lemma NormalizeIgnoresOuterSpace(name: string)
    ensures NormalizeCountry(name) == NormalizeCountry(Strip(name))
  {
    StripIdempotent(name);
  }

  lemma ExampleOuterSpace()
    ensures NormalizeCountry("  chad ") == "Chad"
  {
    StripExample();
    NormalizeIgnoresOuterSpace("  chad ");
    NormalizeNoArticle("chad");
    TitleChad();
  }

  /** Stripping a string that has outer whitespace makes it shorter. */
  lemma StripShortens(s: string)
    requires s != [] && (IsSpace(s[0]) || IsSpace(s[|s| - 1]))
    ensures |Strip(s)| < |s|
  {
  }

  lemma TitleKeepsSpaces(s: string, i: nat)
    requires i < |s|
    ensures IsSpace(Title(s)[i]) == IsSpace(s[i])
  {
    var r := Title(s);
    assert r[i] == TitleAt(s, i);
  }

  /** `IdempotentIff` for one title-cased string whose last character is not whitespace. */
  lemma TitledIdempotentIff(u: string)
    requires u == [] || !IsSpace(u[|u| - 1])
    ensures var r := Title(u);
      NormalizeCountry(r) == r <==> (r == [] || !IsSpace(r[0])) && !StartsWithThe(r)
  {
    var r := Title(u);
    if (r == [] || !IsSpace(r[0])) && !StartsWithThe(r) {
      if r != [] {
        TitleKeepsSpaces(u, |u| - 1);
      }
      assert NoOuterSpace(r);
      assert Strip(r) == r && Stem(r) == r;
      TitleIdempotent(u);
    } else if r != [] && IsSpace(r[0]) {
      StripShortens(r);
      assert |Stem(r)| < |r|;
    } else if Strip(r) != r {
      StripShortens(r);
      assert |Stem(r)| < |r|;
    } else {
      assert |Stem(r)| < |r|;
    }
  }

  /**
   * Normalising twice gives the same name exactly when the first result neither starts with
   * whitespace nor with "the ": "The The Bahamas" gives "The Bahamas", then "Bahamas".
   */
  lemma NormalizeIdempotentIff(name: string)
    ensures var r := NormalizeCountry(name);
      NormalizeCountry(r) == r <==> (r == [] || !IsSpace(r[0])) && !StartsWithThe(r)
  {
    var u := Stem(name);
    if u != [] {
      assert u[|u| - 1] == Strip(name)[|Strip(name)| - 1];
    }
    TitledIdempotentIff(u);
  }

  /** Whitespace after the article survives the first pass and is stripped by the second. */
  lemma NotIdempotentExample()
    ensures NormalizeCountry("the  chad") == " Chad"
    ensures NormalizeCountry(NormalizeCountry("the  chad")) == "Chad"
  {
    NormalizeSpacedArticle();
    NormalizeSpacedChad();
  }

  lemma NormalizeSpacedArticle()
    ensures NormalizeCountry("the  chad") == " Chad"
  {
    LowerArticles();
    assert "the  chad"[..4] == "the ";
    NormalizeArticle("the  chad");
    assert "the  chad"[4..] == " chad";
    TitleChad();
  }

  lemma NormalizeSpacedChad()
    ensures NormalizeCountry(" Chad") == "Chad"
  {
    StripLeading();
    NormalizeIgnoresOuterSpace(" Chad");
    NormalizeNoArticle("Chad");
    TitleIdempotent("chad");
    TitleChad();
  }

  /** `Strip` of a title-cased string is title-cased: what it removes ends in whitespace. */
  lemma StripTitled(u: string)
    ensures Title(Strip(Title(u))) == Strip(Title(u))
  {
    var r := Title(u);
    var s := Strip(r);
    var a := LeadingSpaces(r);
    TitleIdempotent(u);
    var tail := r[a..];
    if a > 0 {
      StripRemovesSpace(r, a - 1);
      TitleDropPrefix(r, a);
    }
    assert Title(tail) == tail;
    TitleTakePrefix(tail, |s|);
    assert tail[..|s|] == s;
  }

  /**
   * A stripped normalised name is title-cased, so looking one up in a mapping can only hit a
   * title-cased key.
   */
  lemma CleanedNameTitled(name: string)
    ensures Title(Strip(NormalizeCountry(name))) == Strip(NormalizeCountry(name))
  {
    StripTitled(Stem(name));
  }
}
