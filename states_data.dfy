/**
 * The per-state feed's column relabelling (states_data.py).
 *
 * The feed names its columns by two-letter region codes; `get_data` maps
 * every column label through a fixed table to the full state or union
 * territory name. The aggregate columns `tt` and `un` and the key columns
 * `date` and `status` map to themselves; a label missing from the table
 * becomes a missing (NaN) label rather than an error.
 */
module StatesData {
  import opened Wrappers

  /** The table's entries, in the order the source lists them. */
  function MapperEntry(code: string): Option<string> {
    match code
    case "an" => Some("Andaman and Nicobar Islands")
    case "ap" => Some("Andhra Pradesh")
    case "ar" => Some("Arunachal Pradesh")
    case "as" => Some("Assam")
    case "br" => Some("Bihar")
    case "ch" => Some("Chandigarh")
    case "ct" => Some("Chhattisgarh")
    case "dd" => Some("Dadra and Nagar Haveli and Daman and Diu")
    case "dl" => Some("Delhi")
    case "dn" => Some("Dadra and Nagar Haveli")
    case "ga" => Some("Goa")
    case "gj" => Some("Gujarat")
    case "hp" => Some("Himachal Pradesh")
    case "hr" => Some("Haryana")
    case "jh" => Some("Jharkhand")
    case "jk" => Some("Jammu and Kashmir")
    case "ka" => Some("Karnataka")
    case "kl" => Some("Kerala")
    case "la" => Some("Ladakh")
    case "ld" => Some("Lakshadweep")
    case "mh" => Some("Maharashtra")
    case "ml" => Some("Meghalaya")
    case "mn" => Some("Manipur")
    case "mp" => Some("Madhya Pradesh")
    case "mz" => Some("Mizoram")
    case "nl" => Some("Nagaland")
    case "or" => Some("Odisha")
    case "pb" => Some("Punjab")
    case "py" => Some("Puducherry")
    case "rj" => Some("Rajasthan")
    case "sk" => Some("Sikkim")
    case "tg" => Some("Telangana")
    case "tn" => Some("Tamil Nadu")
    case "tr" => Some("Tripura")
    case "tt" => Some("tt")
    case "un" => Some("un")
    case "up" => Some("Uttar Pradesh")
    case "ut" => Some("Uttarakhand")
    case "wb" => Some("West Bengal")
    case "date" => Some("date")
    case "status" => Some("status")
    case _ => None
  }

  /** The labels the table leaves as they are: the two aggregates and the two key columns. */
  const KEPT_LABELS: set<string> := {"tt", "un", "date", "status"}

  /** The dictionary's keys. */
  const MAPPER_KEYS: set<string> := {
    "an", "ap", "ar", "as", "br", "ch", "ct", "dd", "dl", "dn", "ga", "gj", "hp", "hr",
    "jh", "jk", "ka", "kl", "la", "ld", "mh", "ml", "mn", "mp", "mz", "nl", "or", "pb",
    "py", "rj", "sk", "tg", "tn", "tr", "tt", "un", "up", "ut", "wb", "date", "status"}

  /** Region code to full name: the dictionary the feed's column labels are renamed with. */
  const MAPPER: map<string, string> := map c | c in MAPPER_KEYS && MapperEntry(c).Some? :: MapperEntry(c).value

  /** Full name back to code: the inverse of MAPPER, a witness that MAPPER is one-to-one. */
  function NameToCode(name: string): Option<string> {
    if |name| == 2 then
      if name == "tt" then Some("tt")
      else if name == "un" then Some("un")
      else None
    else if |name| == 3 then
      if name == "Goa" then Some("ga")
      else None
    else if |name| == 4 then
      if name == "date" then Some("date")
      else None
    else if |name| == 5 then
      if name == "Assam" then Some("as")
      else if name == "Bihar" then Some("br")
      else if name == "Delhi" then Some("dl")
      else None
    else if |name| == 6 then
      if name == "Kerala" then Some("kl")
      else if name == "Ladakh" then Some("la")
      else if name == "Odisha" then Some("or")
      else if name == "Punjab" then Some("pb")
      else if name == "Sikkim" then Some("sk")
      else if name == "status" then Some("status")
      else None
    else if |name| == 7 then
      if name == "Gujarat" then Some("gj")
      else if name == "Haryana" then Some("hr")
      else if name == "Manipur" then Some("mn")
      else if name == "Mizoram" then Some("mz")
      else if name == "Tripura" then Some("tr")
      else None
    else if |name| == 8 then
      if name == "Nagaland" then Some("nl")
      else None
    else if |name| == 9 then
      if name == "Jharkhand" then Some("jh")
      else if name == "Karnataka" then Some("ka")
      else if name == "Meghalaya" then Some("ml")
      else if name == "Rajasthan" then Some("rj")
      else if name == "Telangana" then Some("tg")
      else None
    else if |name| == 10 then
      if name == "Chandigarh" then Some("ch")
      else if name == "Puducherry" then Some("py")
      else if name == "Tamil Nadu" then Some("tn")
      else None
    else if |name| == 11 then
      if name == "Lakshadweep" then Some("ld")
      else if name == "Maharashtra" then Some("mh")
      else if name == "Uttarakhand" then Some("ut")
      else if name == "West Bengal" then Some("wb")
      else None
    else if |name| == 12 then
      if name == "Chhattisgarh" then Some("ct")
      else None
    else if |name| == 13 then
      if name == "Uttar Pradesh" then Some("up")
      else None
    else if |name| == 14 then
      if name == "Andhra Pradesh" then Some("ap")
      else if name == "Madhya Pradesh" then Some("mp")
      else None
    else if |name| == 16 then
      if name == "Himachal Pradesh" then Some("hp")
      else None
    else if |name| == 17 then
      if name == "Arunachal Pradesh" then Some("ar")
      else if name == "Jammu and Kashmir" then Some("jk")
      else None
    else if |name| == 22 then
      if name == "Dadra and Nagar Haveli" then Some("dn")
      else None
    else if |name| == 27 then
      if name == "Andaman and Nicobar Islands" then Some("an")
      else None
    else if |name| == 40 then
      if name == "Dadra and Nagar Haveli and Daman and Diu" then Some("dd")
      else None
    else None
  }

  /** The dictionary holds exactly the entries listed. */
  lemma MapperDomain()
    ensures forall c :: c in MAPPER <==> MapperEntry(c).Some?
  {
  }

  /** The kept labels map to themselves. */
  lemma MapperKeepsSentinels()
    ensures forall l :: l in KEPT_LABELS ==> l in MAPPER && MAPPER[l] == l
  {
  }

  /** Every other code is renamed to something other than itself. */
  lemma MapperRenamesCodes()
    ensures forall c :: c in MAPPER && c !in KEPT_LABELS ==> MAPPER[c] != c
  {
    forall c | c in MAPPER && c !in KEPT_LABELS
      ensures MAPPER[c] != c
    {
      assert MAPPER[c] == MapperEntry(c).value;
      assert MapperEntry(c).value != c;
    }
  }

  /** NameToCode undoes MAPPER on an, ap, ar. */
  lemma MapperInverseGroup1(c: string)
    requires c in {"an", "ap", "ar"}
    ensures c in MAPPER && NameToCode(MAPPER[c]) == Some(c)
  {
    if c == "an" {
      assert MapperEntry(c) == Some("Andaman and Nicobar Islands");
      assert NameToCode("Andaman and Nicobar Islands") == Some("an");
    } else if c == "ap" {
      assert MapperEntry(c) == Some("Andhra Pradesh");
      assert NameToCode("Andhra Pradesh") == Some("ap");
    } else if c == "ar" {
      assert MapperEntry(c) == Some("Arunachal Pradesh");
      assert NameToCode("Arunachal Pradesh") == Some("ar");
    }
  }

  /** NameToCode undoes MAPPER on as, br, ch. */
  lemma MapperInverseGroup2(c: string)
    requires c in {"as", "br", "ch"}
    ensures c in MAPPER && NameToCode(MAPPER[c]) == Some(c)
  {
    if c == "as" {
      assert MapperEntry(c) == Some("Assam");
      assert NameToCode("Assam") == Some("as");
    } else if c == "br" {
      assert MapperEntry(c) == Some("Bihar");
      assert NameToCode("Bihar") == Some("br");
    } else if c == "ch" {
      assert MapperEntry(c) == Some("Chandigarh");
      assert NameToCode("Chandigarh") == Some("ch");
    }
  }

  /** NameToCode undoes MAPPER on ct, dd, dl. */
  lemma MapperInverseGroup3(c: string)
    requires c in {"ct", "dd", "dl"}
    ensures c in MAPPER && NameToCode(MAPPER[c]) == Some(c)
  {
    if c == "ct" {
      assert MapperEntry(c) == Some("Chhattisgarh");
      assert NameToCode("Chhattisgarh") == Some("ct");
    } else if c == "dd" {
      assert MapperEntry(c) == Some("Dadra and Nagar Haveli and Daman and Diu");
      assert NameToCode("Dadra and Nagar Haveli and Daman and Diu") == Some("dd");
    } else if c == "dl" {
      assert MapperEntry(c) == Some("Delhi");
      assert NameToCode("Delhi") == Some("dl");
    }
  }

  /** NameToCode undoes MAPPER on dn, ga, gj. */
  lemma MapperInverseGroup4(c: string)
    requires c in {"dn", "ga", "gj"}
    ensures c in MAPPER && NameToCode(MAPPER[c]) == Some(c)
  {
    if c == "dn" {
      assert MapperEntry(c) == Some("Dadra and Nagar Haveli");
      assert NameToCode("Dadra and Nagar Haveli") == Some("dn");
    } else if c == "ga" {
      assert MapperEntry(c) == Some("Goa");
      assert NameToCode("Goa") == Some("ga");
    } else if c == "gj" {
      assert MapperEntry(c) == Some("Gujarat");
      assert NameToCode("Gujarat") == Some("gj");
    }
  }

  /** NameToCode undoes MAPPER on hp, hr, jh. */
  lemma MapperInverseGroup5(c: string)
    requires c in {"hp", "hr", "jh"}
    ensures c in MAPPER && NameToCode(MAPPER[c]) == Some(c)
  {
    if c == "hp" {
      assert MapperEntry(c) == Some("Himachal Pradesh");
      assert NameToCode("Himachal Pradesh") == Some("hp");
    } else if c == "hr" {
      assert MapperEntry(c) == Some("Haryana");
      assert NameToCode("Haryana") == Some("hr");
    } else if c == "jh" {
      assert MapperEntry(c) == Some("Jharkhand");
      assert NameToCode("Jharkhand") == Some("jh");
    }
  }

  /** NameToCode undoes MAPPER on jk, ka, kl. */
  lemma MapperInverseGroup6(c: string)
    requires c in {"jk", "ka", "kl"}
    ensures c in MAPPER && NameToCode(MAPPER[c]) == Some(c)
  {
    if c == "jk" {
      assert MapperEntry(c) == Some("Jammu and Kashmir");
      assert NameToCode("Jammu and Kashmir") == Some("jk");
    } else if c == "ka" {
      assert MapperEntry(c) == Some("Karnataka");
      assert NameToCode("Karnataka") == Some("ka");
    } else if c == "kl" {
      assert MapperEntry(c) == Some("Kerala");
      assert NameToCode("Kerala") == Some("kl");
    }
  }

  /** NameToCode undoes MAPPER on la, ld, mh. */
  lemma MapperInverseGroup7(c: string)
    requires c in {"la", "ld", "mh"}
    ensures c in MAPPER && NameToCode(MAPPER[c]) == Some(c)
  {
    if c == "la" {
      assert MapperEntry(c) == Some("Ladakh");
      assert NameToCode("Ladakh") == Some("la");
    } else if c == "ld" {
      assert MapperEntry(c) == Some("Lakshadweep");
      assert NameToCode("Lakshadweep") == Some("ld");
    } else if c == "mh" {
      assert MapperEntry(c) == Some("Maharashtra");
      assert NameToCode("Maharashtra") == Some("mh");
    }
  }

  /** NameToCode undoes MAPPER on ml, mn, mp. */
  lemma MapperInverseGroup8(c: string)
    requires c in {"ml", "mn", "mp"}
    ensures c in MAPPER && NameToCode(MAPPER[c]) == Some(c)
  {
    if c == "ml" {
      assert MapperEntry(c) == Some("Meghalaya");
      assert NameToCode("Meghalaya") == Some("ml");
    } else if c == "mn" {
      assert MapperEntry(c) == Some("Manipur");
      assert NameToCode("Manipur") == Some("mn");
    } else if c == "mp" {
      assert MapperEntry(c) == Some("Madhya Pradesh");
      assert NameToCode("Madhya Pradesh") == Some("mp");
    }
  }

  /** NameToCode undoes MAPPER on mz, nl, or. */
  lemma MapperInverseGroup9(c: string)
    requires c in {"mz", "nl", "or"}
    ensures c in MAPPER && NameToCode(MAPPER[c]) == Some(c)
  {
    if c == "mz" {
      assert MapperEntry(c) == Some("Mizoram");
      assert NameToCode("Mizoram") == Some("mz");
    } else if c == "nl" {
      assert MapperEntry(c) == Some("Nagaland");
      assert NameToCode("Nagaland") == Some("nl");
    } else if c == "or" {
      assert MapperEntry(c) == Some("Odisha");
      assert NameToCode("Odisha") == Some("or");
    }
  }

  /** NameToCode undoes MAPPER on pb, py, rj. */
  lemma MapperInverseGroup10(c: string)
    requires c in {"pb", "py", "rj"}
    ensures c in MAPPER && NameToCode(MAPPER[c]) == Some(c)
  {
    if c == "pb" {
      assert MapperEntry(c) == Some("Punjab");
      assert NameToCode("Punjab") == Some("pb");
    } else if c == "py" {
      assert MapperEntry(c) == Some("Puducherry");
      assert NameToCode("Puducherry") == Some("py");
    } else if c == "rj" {
      assert MapperEntry(c) == Some("Rajasthan");
      assert NameToCode("Rajasthan") == Some("rj");
    }
  }

  /** NameToCode undoes MAPPER on sk, tg, tn. */
  lemma MapperInverseGroup11(c: string)
    requires c in {"sk", "tg", "tn"}
    ensures c in MAPPER && NameToCode(MAPPER[c]) == Some(c)
  {
    if c == "sk" {
      assert MapperEntry(c) == Some("Sikkim");
      assert NameToCode("Sikkim") == Some("sk");
    } else if c == "tg" {
      assert MapperEntry(c) == Some("Telangana");
      assert NameToCode("Telangana") == Some("tg");
    } else if c == "tn" {
      assert MapperEntry(c) == Some("Tamil Nadu");
      assert NameToCode("Tamil Nadu") == Some("tn");
    }
  }

  /** NameToCode undoes MAPPER on tr, tt, un. */
  lemma MapperInverseGroup12(c: string)
    requires c in {"tr", "tt", "un"}
    ensures c in MAPPER && NameToCode(MAPPER[c]) == Some(c)
  {
    if c == "tr" {
      assert MapperEntry(c) == Some("Tripura");
      assert NameToCode("Tripura") == Some("tr");
    } else if c == "tt" {
      assert MapperEntry(c) == Some("tt");
      assert NameToCode("tt") == Some("tt");
    } else if c == "un" {
      assert MapperEntry(c) == Some("un");
      assert NameToCode("un") == Some("un");
    }
  }

  /** NameToCode undoes MAPPER on up, ut, wb. */
  lemma MapperInverseGroup13(c: string)
    requires c in {"up", "ut", "wb"}
    ensures c in MAPPER && NameToCode(MAPPER[c]) == Some(c)
  {
    if c == "up" {
      assert MapperEntry(c) == Some("Uttar Pradesh");
      assert NameToCode("Uttar Pradesh") == Some("up");
    } else if c == "ut" {
      assert MapperEntry(c) == Some("Uttarakhand");
      assert NameToCode("Uttarakhand") == Some("ut");
    } else if c == "wb" {
      assert MapperEntry(c) == Some("West Bengal");
      assert NameToCode("West Bengal") == Some("wb");
    }
  }

  /** NameToCode undoes MAPPER on date, status. */
  lemma MapperInverseGroup14(c: string)
    requires c in {"date", "status"}
    ensures c in MAPPER && NameToCode(MAPPER[c]) == Some(c)
  {
    if c == "date" {
      assert MapperEntry(c) == Some("date");
      assert NameToCode("date") == Some("date");
    } else if c == "status" {
      assert MapperEntry(c) == Some("status");
      assert NameToCode("status") == Some("status");
    }
  }

  /** NameToCode undoes MAPPER. */
  lemma MapperInverse(c: string)
    requires c in MAPPER
    ensures NameToCode(MAPPER[c]) == Some(c)
  {
    if c in {"an", "ap", "ar"} {
      MapperInverseGroup1(c);
    } else if c in {"as", "br", "ch"} {
      MapperInverseGroup2(c);
    } else if c in {"ct", "dd", "dl"} {
      MapperInverseGroup3(c);
    } else if c in {"dn", "ga", "gj"} {
      MapperInverseGroup4(c);
    } else if c in {"hp", "hr", "jh"} {
      MapperInverseGroup5(c);
    } else if c in {"jk", "ka", "kl"} {
      MapperInverseGroup6(c);
    } else if c in {"la", "ld", "mh"} {
      MapperInverseGroup7(c);
    } else if c in {"ml", "mn", "mp"} {
      MapperInverseGroup8(c);
    } else if c in {"mz", "nl", "or"} {
      MapperInverseGroup9(c);
    } else if c in {"pb", "py", "rj"} {
      MapperInverseGroup10(c);
    } else if c in {"sk", "tg", "tn"} {
      MapperInverseGroup11(c);
    } else if c in {"tr", "tt", "un"} {
      MapperInverseGroup12(c);
    } else if c in {"up", "ut", "wb"} {
      MapperInverseGroup13(c);
    } else {
      MapperInverseGroup14(c);
    }
  }

  /** No two labels share a name. */
  lemma MapperInjective(c1: string, c2: string)
    requires c1 in MAPPER && c2 in MAPPER && c1 != c2
    ensures MAPPER[c1] != MAPPER[c2]
  {
    MapperInverse(c1);
    MapperInverse(c2);
  }

  // ---------------------------------------------------------------------
  // The column relabel
  // ---------------------------------------------------------------------

  /** pandas' `Index.map(MAPPER)` on one label: the name, or a missing label. */
  function Rename(code: string): (r: Option<string>)
    ensures r.Some? <==> code in MAPPER
  {
    if code in MAPPER then Some(MAPPER[code]) else None
  }

  /** `columns.map(MAPPER)`: every label renamed, position by position. */
  function Relabel(columns: seq<string>): (r: seq<Option<string>>)
    ensures |r| == |columns|
    ensures forall i :: 0 <= i < |columns| ==> (r[i].Some? <==> columns[i] in MAPPER)
    ensures forall i :: 0 <= i < |columns| && columns[i] in MAPPER ==> r[i] == Some(MAPPER[columns[i]])
  {
    seq(|columns|, i requires 0 <= i < |columns| => Rename(columns[i]))
  }

  /** The per-state feed as fetched: column labels and rows of cells. */
  datatype RawFrame = RawFrame(columns: seq<string>, rows: seq<seq<string>>)

  /** The same frame after the relabel: labels may be missing, cells are as fetched. */
  datatype StatesFrame = StatesFrame(columns: seq<Option<string>>, rows: seq<seq<string>>)

  /** `get_data` after the fetch: the column labels replaced by their mapped names. */
  function GetData(raw: RawFrame): (r: StatesFrame)
    ensures r.rows == raw.rows
    ensures |r.columns| == |raw.columns|
    ensures forall i :: 0 <= i < |raw.columns| ==>
              if raw.columns[i] in MAPPER then r.columns[i] == Some(MAPPER[raw.columns[i]]) else r.columns[i] == None
  {
    StatesFrame(Relabel(raw.columns), raw.rows)
  }

  /** Distinct labels from the table give distinct names: the relabel never creates duplicate columns. */
  lemma RelabelDistinct(columns: seq<string>)
    requires forall i :: 0 <= i < |columns| ==> columns[i] in MAPPER
    requires forall i, j :: 0 <= i < j < |columns| ==> columns[i] != columns[j]
    ensures forall i, j :: 0 <= i < j < |Relabel(columns)| ==> Relabel(columns)[i] != Relabel(columns)[j]
  {
    var r := Relabel(columns);
    forall i, j | 0 <= i < j < |r| ensures r[i] != r[j] {
      MapperInjective(columns[i], columns[j]);
    }
  }

  /** Relabelling known labels and mapping the names back gives the original labels. */
  lemma RelabelRoundTrip(columns: seq<string>)
    requires forall i :: 0 <= i < |columns| ==> columns[i] in MAPPER
    ensures forall i :: 0 <= i < |columns| ==>
              Relabel(columns)[i].Some? && NameToCode(Relabel(columns)[i].value) == Some(columns[i])
  {
    forall i | 0 <= i < |columns| ensures NameToCode(Relabel(columns)[i].value) == Some(columns[i]) {
      MapperInverse(columns[i]);
    }
  }

  /** The aggregate and key columns survive the relabel under their own names, where they were. */
  lemma RelabelKeepsSentinels(columns: seq<string>, i: nat)
    requires i < |columns| && columns[i] in KEPT_LABELS
    ensures Relabel(columns)[i] == Some(columns[i])
  {
    MapperKeepsSentinels();
  }

  /** An unknown code is not rejected: its column stays, with a missing label, and the others are renamed. */
  lemma RelabelUnknownCode()
    ensures Relabel(["zz", "an"]) == [None, Some("Andaman and Nicobar Islands")]
  {
    assert "zz" !in MAPPER;
    assert "an" in MAPPER_KEYS && MapperEntry("an") == Some("Andaman and Nicobar Islands");
    assert MAPPER["an"] == "Andaman and Nicobar Islands";
    var r := Relabel(["zz", "an"]);
    assert r[0] == None && r[1] == Some("Andaman and Nicobar Islands");
  }
}
