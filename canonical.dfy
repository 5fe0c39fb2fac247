/**
 * `clean_country`: strip a name and replace it by its canonical form when it is an alias.
 * The join scripts each carry their own alias table.
 */
module Canonical {
  import opened Strings
  import opened Names

  /** The aliases of `merge_datasets`. */
  const MergeAliases: map<string, string> := map[
    "Cape Verde" := "Cabo Verde",
    "Côte d'Ivoire" := "Cote d'Ivoire",
    "Dr Congo" := "Democratic Republic Of Congo",
    "Faeroe Islands" := "Faroe Islands",
    "Micronesia (Country)" := "Micronesia",
    "Réunion" := "Reunion",
    "Sao Tome & Principe" := "Sao Tome And Principe",
    "Palestine" := "State Of Palestine",
    "U.S. Virgin Islands" := "United States Virgin Islands"
  ]

  /** The aliases of the integration script. */
  const IntegrationAliases: map<string, string> := map[
    "Cape Verde" := "Cabo Verde",
    "Côte d'Ivoire" := "Cote d'Ivoire",
    "DR Congo" := "Democratic Republic of Congo",
    "Faeroe Islands" := "Faroe Islands",
    "Micronesia (country)" := "Micronesia",
    "Réunion" := "Reunion",
    "Sao Tome & Principe" := "Sao Tome and Principe"
  ]

  /** `country_mapping.get(name.strip(), name.strip())`. */
  function CleanCountry(aliases: map<string, string>, name: string): (r: string)
    ensures Strip(name) in aliases ==> r == aliases[Strip(name)]
    ensures Strip(name) !in aliases ==> r == Strip(name)
  {
    var s := Strip(name);
    if s in aliases then aliases[s] else s
  }

  /** No canonical name is itself an alias, and none carries outer whitespace. */
  predicate Closed(aliases: map<string, string>) {
    aliases.Keys !! aliases.Values && forall v :: v in aliases.Values ==> NoOuterSpace(v)
  }

  /** For a closed alias table, cleaning a cleaned name changes nothing. */
  lemma CleanCountryIdempotent(aliases: map<string, string>, name: string)
    requires Closed(aliases)
    ensures CleanCountry(aliases, CleanCountry(aliases, name)) == CleanCountry(aliases, name)
  {
    var s := Strip(name);
    var once := CleanCountry(aliases, name);
    if s in aliases {
      assert once == aliases[s] && once in aliases.Values;
      assert Strip(once) == once && once !in aliases;
    } else {
      assert once == s && Strip(s) == s;
    }
  }

  lemma MergeAliasesKeys()
    ensures MergeAliases.Keys == {
      "Cape Verde", "Côte d'Ivoire", "Dr Congo", "Faeroe Islands", "Micronesia (Country)",
      "Réunion", "Sao Tome & Principe", "Palestine", "U.S. Virgin Islands"}
  {
  }

  lemma MergeAliasesTargets()
    ensures MergeAliases.Values == {
      "Cabo Verde", "Cote d'Ivoire", "Democratic Republic Of Congo", "Faroe Islands",
      "Micronesia", "Reunion", "Sao Tome And Principe", "State Of Palestine",
      "United States Virgin Islands"}
  {
    MergeAliasesKeys();
    assert MergeAliases["Cape Verde"] == "Cabo Verde";
    assert MergeAliases["Côte d'Ivoire"] == "Cote d'Ivoire";
    assert MergeAliases["Dr Congo"] == "Democratic Republic Of Congo";
    assert MergeAliases["Faeroe Islands"] == "Faroe Islands";
    assert MergeAliases["Micronesia (Country)"] == "Micronesia";
    assert MergeAliases["Réunion"] == "Reunion";
    assert MergeAliases["Sao Tome & Principe"] == "Sao Tome And Principe";
    assert MergeAliases["Palestine"] == "State Of Palestine";
    assert MergeAliases["U.S. Virgin Islands"] == "United States Virgin Islands";
  }

  lemma MergeAliasesDisjoint()
    ensures MergeAliases.Keys !! MergeAliases.Values
  {
    MergeAliasesKeys();
    MergeAliasesTargets();
  }

  lemma MergeAliasesUnspaced()
    ensures forall v :: v in MergeAliases.Values ==> NoOuterSpace(v)
  {
    MergeAliasesTargets();
    assert NoOuterSpace("Cabo Verde");
    assert NoOuterSpace("Cote d'Ivoire");
    assert NoOuterSpace("Democratic Republic Of Congo");
    assert NoOuterSpace("Faroe Islands");
    assert NoOuterSpace("Micronesia");
    assert NoOuterSpace("Reunion");
    assert NoOuterSpace("Sao Tome And Principe");
    assert NoOuterSpace("State Of Palestine");
    assert NoOuterSpace("United States Virgin Islands");
  }

  /** No canonical name of the table is itself an alias, so cleaning it is idempotent. */
  lemma MergeAliasesClosed()
    ensures Closed(MergeAliases)
  {
    MergeAliasesDisjoint();
    MergeAliasesUnspaced();
  }

  lemma IntegrationAliasesKeys()
    ensures IntegrationAliases.Keys == {
      "Cape Verde", "Côte d'Ivoire", "DR Congo", "Faeroe Islands", "Micronesia (country)",
      "Réunion", "Sao Tome & Principe"}
  {
  }

  lemma IntegrationAliasesTargets()
    ensures IntegrationAliases.Values == {
      "Cabo Verde", "Cote d'Ivoire", "Democratic Republic of Congo", "Faroe Islands",
      "Micronesia", "Reunion", "Sao Tome and Principe"}
  {
    IntegrationAliasesKeys();
    assert IntegrationAliases["Cape Verde"] == "Cabo Verde";
    assert IntegrationAliases["Côte d'Ivoire"] == "Cote d'Ivoire";
    assert IntegrationAliases["DR Congo"] == "Democratic Republic of Congo";
    assert IntegrationAliases["Faeroe Islands"] == "Faroe Islands";
    assert IntegrationAliases["Micronesia (country)"] == "Micronesia";
    assert IntegrationAliases["Réunion"] == "Reunion";
    assert IntegrationAliases["Sao Tome & Principe"] == "Sao Tome and Principe";
  }

  lemma IntegrationAliasesDisjoint()
    ensures IntegrationAliases.Keys !! IntegrationAliases.Values
  {
    IntegrationAliasesKeys();
    IntegrationAliasesTargets();
  }

  lemma IntegrationAliasesUnspaced()
    ensures forall v :: v in IntegrationAliases.Values ==> NoOuterSpace(v)
  {
    IntegrationAliasesTargets();
    assert NoOuterSpace("Cabo Verde");
    assert NoOuterSpace("Cote d'Ivoire");
    assert NoOuterSpace("Democratic Republic of Congo");
    assert NoOuterSpace("Faroe Islands");
    assert NoOuterSpace("Micronesia");
    assert NoOuterSpace("Reunion");
    assert NoOuterSpace("Sao Tome and Principe");
  }

  /** No canonical name of the table is itself an alias, so cleaning it is idempotent. */
  lemma IntegrationAliasesClosed()
    ensures Closed(IntegrationAliases)
  {
    IntegrationAliasesDisjoint();
    IntegrationAliasesUnspaced();
  }

  /** A name without outer whitespace is looked up as it is. */
  lemma CleanCountryUnspaced(aliases: map<string, string>, name: string)
    requires NoOuterSpace(name)
    ensures name in aliases ==> CleanCountry(aliases, name) == aliases[name]
    ensures name !in aliases ==> CleanCountry(aliases, name) == name
  {
  }

  /**
   * A stripped normalised name is title-cased, so an alias that title-casing would change is
   * never hit by a name that went through `normalize_country`.
   */
  lemma UntitledAliasUnreachable(k: string, name: string)
    requires Title(k) != k
    ensures Strip(NormalizeCountry(name)) != k
  {
    CleanedNameTitled(name);
  }

  /** Title-casing changes these spellings, so a normalised name never equals one of them. */
  lemma UntitledCote()
    ensures Title("Côte d'Ivoire") != "Côte d'Ivoire"
    ensures Title("Cote d'Ivoire") != "Cote d'Ivoire"
  {
    var a := "Côte d'Ivoire";
    assert a[4] == ' ' && a[5] == 'd' && !IsLetter(a[4]);
    assert Title(a)[5] == TitleAt(a, 5) == 'D';
    var d := "Cote d'Ivoire";
    assert d[4] == ' ' && d[5] == 'd' && !IsLetter(d[4]);
    assert Title(d)[5] == TitleAt(d, 5) == 'D';
  }

  lemma UntitledCongo()
    ensures Title("DR Congo") != "DR Congo"
  {
    var b := "DR Congo";
    assert Title(b)[1] == TitleAt(b, 1) == 'r';
  }

  lemma UntitledMicronesia()
    ensures Title("Micronesia (country)") != "Micronesia (country)"
  {
    var c := "Micronesia (country)";
    assert Title(c)[12] == TitleAt(c, 12) == 'C';
  }

  /** A cleaned name is the stripped name itself or the canonical name of that alias. */
  lemma CleanCountryPreimage(aliases: map<string, string>, name: string, v: string)
    requires CleanCountry(aliases, name) == v
    ensures Strip(name) == v || (Strip(name) in aliases && aliases[Strip(name)] == v)
  {
  }

  lemma MergeCoteAlias()
    ensures forall k :: k in MergeAliases && MergeAliases[k] == "Cote d'Ivoire" ==> k == "Côte d'Ivoire"
  {
    MergeAliasesKeys();
  }

  lemma IntegrationCoteAlias()
    ensures forall k :: k in IntegrationAliases && IntegrationAliases[k] == "Cote d'Ivoire" ==> k == "Côte d'Ivoire"
  {
    IntegrationAliasesKeys();
  }

  /**
   * Neither spelling is title-cased, so after normalisation no name is ever cleaned to
   * "Cote d'Ivoire" by either table.
   */
  lemma CoteDIvoireNeverCanonical(name: string)
    ensures CleanCountry(MergeAliases, NormalizeCountry(name)) != "Cote d'Ivoire"
    ensures CleanCountry(IntegrationAliases, NormalizeCountry(name)) != "Cote d'Ivoire"
  {
    UntitledCote();
    UntitledAliasUnreachable("Côte d'Ivoire", name);
    UntitledAliasUnreachable("Cote d'Ivoire", name);
    var n := NormalizeCountry(name);
    if CleanCountry(MergeAliases, n) == "Cote d'Ivoire" {
      CleanCountryPreimage(MergeAliases, n, "Cote d'Ivoire");
      MergeCoteAlias();
    }
    if CleanCountry(IntegrationAliases, n) == "Cote d'Ivoire" {
      CleanCountryPreimage(IntegrationAliases, n, "Cote d'Ivoire");
      IntegrationCoteAlias();
    }
  }
}
