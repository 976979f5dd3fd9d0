/** Choosing the column that holds the time axis (`detect_time_col`). */
module TimeColumn {

  import opened Wrappers
  import opened Seqs
  import opened Strings

  /** Names that select a column by an exact, case-insensitive match. */
  const ExactNames: seq<string> := ["datetime", "date", "timestamp", "time", "ora", "data"]

  /** Tokens that select a column when they occur in its lower-cased name. */
  const Tokens: seq<string> := ["date", "time", "ora", "data"]

  predicate IsExact(name: string) {
    ToLower(name) in ExactNames
  }

  /** Python's `any(k in s for k in toks)`. */
  predicate ContainsAny(s: string, toks: seq<string>) {
    toks != [] && (Contains(s, toks[0]) || ContainsAny(s, toks[1..]))
  }

  predicate HasToken(name: string) {
    ContainsAny(ToLower(name), Tokens)
  }

  /** The exact candidates, spelled out. */
  lemma ExactNamesMember(l: string)
    ensures l in ExactNames <==>
      l == "datetime" || l == "date" || l == "timestamp" || l == "time" || l == "ora" || l == "data"
  {
    assert ExactNames == ["datetime", "date", "timestamp", "time", "ora", "data"];
  }

  /** The token test, spelled out. */
  lemma TokensContained(s: string)
    ensures ContainsAny(s, Tokens) <==>
      Contains(s, "date") || Contains(s, "time") || Contains(s, "ora") || Contains(s, "data")
  {
    var t0 := Tokens;
    var t1 := t0[1..];
    var t2 := t1[1..];
    var t3 := t2[1..];
    assert t0[0] == "date" && t1[0] == "time" && t2[0] == "ora" && t3[0] == "data" && t3[1..] == [];
    assert ContainsAny(s, t3) == Contains(s, "data");
    assert ContainsAny(s, t2) == (Contains(s, "ora") || ContainsAny(s, t3));
    assert ContainsAny(s, t1) == (Contains(s, "time") || ContainsAny(s, t2));
    assert ContainsAny(s, t0) == (Contains(s, "date") || ContainsAny(s, t1));
  }

  /** Every exact candidate contains one of the tokens, so the first rule only ever picks
      columns the second rule would accept as well. */
  lemma ExactHasToken(name: string)
    ensures IsExact(name) ==> HasToken(name)
  {
    var l := ToLower(name);
    ExactNamesMember(l);
    TokensContained(l);
    if l == "datetime" || l == "date" {
      assert "date" <= l;
      assert Contains(l, "date");
    } else if l == "timestamp" || l == "time" {
      assert "time" <= l;
      assert Contains(l, "time");
    } else if l == "ora" {
      assert Contains(l, "ora");
    } else if l == "data" {
      assert Contains(l, "data");
    }
  }

  /** The first column whose lower-cased name is an exact candidate; failing that, the first
      column whose lower-cased name contains a token; failing that, nothing. */
  function DetectTimeCol(columns: seq<string>): (r: Option<string>)
    ensures r.Some? ==> r.value in columns && HasToken(r.value)
  {
    var exact := Filter(columns, IsExact);
    var c := if exact != [] then exact else Filter(columns, HasToken);
    if c == [] then None
    else
      ExactHasToken(c[0]);
      Some(c[0])
  }

  /** Rule 1: the first exact match wins, whatever substring matches precede it. */
  lemma DetectExact(columns: seq<string>, i: int)
    requires IsFirst(columns, IsExact, i)
    ensures DetectTimeCol(columns) == Some(columns[i])
  {
    FilterHead(columns, IsExact, i);
  }

  /** Rule 2: with no exact match, the first column containing a token wins. */
  lemma DetectFallback(columns: seq<string>, i: int)
    requires forall j :: 0 <= j < |columns| ==> !IsExact(columns[j])
    requires IsFirst(columns, HasToken, i)
    ensures DetectTimeCol(columns) == Some(columns[i])
  {
    FilterEmpty(columns, IsExact);
    FilterHead(columns, HasToken, i);
  }

  /** No time column is found exactly when no lower-cased name contains a token. */
  lemma DetectNone(columns: seq<string>)
    ensures DetectTimeCol(columns) == None <==> forall i :: 0 <= i < |columns| ==> !HasToken(columns[i])
  {
    FilterEmpty(columns, IsExact);
    FilterEmpty(columns, HasToken);
    forall i | 0 <= i < |columns| ensures IsExact(columns[i]) ==> HasToken(columns[i]) {
      ExactHasToken(columns[i]);
    }
  }

  /** Both rules judge a name by its lower-cased form only: a name and its lower-case
      spelling are treated alike. */
  lemma LowerCaseInvariant(name: string)
    ensures IsExact(ToLower(name)) == IsExact(name)
    ensures HasToken(ToLower(name)) == HasToken(name)
  {
    LowerIdempotent(name);
  }

  /** An all-capitals exact candidate is still an exact candidate. */
  lemma UpperCaseExactName()
    ensures IsExact("DATE") && IsExact("Timestamp")
  {
    assert ToLower("DATE") == "date";
    assert ToLower("Timestamp") == "timestamp";
    ExactNamesMember("date");
    ExactNamesMember("timestamp");
  }

  /** A name that is not an exact candidate once lower-cased. */
  lemma NotExactName(name: string, lower: string)
    requires ToLower(name) == lower
    requires lower != "datetime" && lower != "date" && lower != "timestamp"
    requires lower != "time" && lower != "ora" && lower != "data"
    ensures !IsExact(name)
  {
    ExactNamesMember(lower);
  }

  /** An exact name later in the order beats an earlier name that only contains a token. */
  lemma ExactBeatsEarlierSubstring()
    ensures HasToken("update_id")
    ensures DetectTimeCol(["update_id", "date"]) == Some("date")
  {
    var cols := ["update_id", "date"];
    assert ToLower("update_id") == "update_id";
    assert OccursAt("update_id", "date", 2) by {
      assert "update_id"[2..6] == "date";
    }
    ContainsOccurs("update_id", "date");
    TokensContained("update_id");
    NotExactName("update_id", "update_id");
    assert ToLower("date") == "date";
    ExactNamesMember("date");
    DetectExact(cols, 1);
  }

  /** A capitalised exact candidate is matched regardless of case. */
  lemma CapitalisedExactName()
    ensures DetectTimeCol(["Data", "Solar_MW", "Eolian_MW"]) == Some("Data")
  {
    assert ToLower("Data") == "data";
    ExactNamesMember("data");
    DetectExact(["Data", "Solar_MW", "Eolian_MW"], 0);
  }

  /** Without an exact name, a column that merely contains a token is chosen. */
  lemma SubstringFallbackExample()
    ensures DetectTimeCol(["id", "DataOra", "Solar_MW"]) == Some("DataOra")
  {
    var cols := ["id", "DataOra", "Solar_MW"];
    FallbackNames();
    assert forall j :: 0 <= j < |cols| ==> !IsExact(cols[j]) by {
      assert cols[0] == "id" && cols[1] == "DataOra" && cols[2] == "Solar_MW";
    }
    assert IsFirst(cols, HasToken, 1) by {
      assert cols[0] == "id" && cols[1] == "DataOra";
    }
    DetectFallback(cols, 1);
  }

  lemma FallbackNames()
    ensures !IsExact("id") && !HasToken("id")
    ensures !IsExact("DataOra") && HasToken("DataOra")
    ensures !IsExact("Solar_MW")
  {
    assert ToLower("id") == "id";
    NotExactName("id", "id");
    assert !HasToken("id") by {
      TooLongNotContained("id", "date");
      TooLongNotContained("id", "time");
      TooLongNotContained("id", "ora");
      TooLongNotContained("id", "data");
      TokensContained("id");
    }
    assert ToLower("DataOra") == "dataora";
    NotExactName("DataOra", "dataora");
    assert HasToken("DataOra") by {
      assert "data" <= "dataora";
      TokensContained("dataora");
    }
    assert ToLower("Solar_MW") == "solar_mw";
    NotExactName("Solar_MW", "solar_mw");
  }

}
