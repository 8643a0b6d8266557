/**
 * The national time-series date normaliser (india_data.py).
 *
 * `convert` splits a label such as "30 January" on whitespace, looks the
 * second token up in a January-July month table and joins
 * day, month number and the fixed year 2020 with dashes: "30-01-2020".
 * `get_data` applies it to the `date` column of every row.
 */
module IndiaData {
  import opened Wrappers

  /** Month name to two-digit month number; the table stops at July. */
  const MONTHS: map<string, string> := map[
    "January" := "01", "February" := "02", "March" := "03", "April" := "04",
    "May" := "05", "June" := "06", "July" := "07"]

  /** The year every converted date carries. */
  const YEAR: string := "2020"

  /** The exceptions `convert` can raise. */
  datatype ConvertError =
    | IndexError            // fewer than two whitespace-separated tokens
    | KeyError(key: string) // the month token is not in MONTHS

  // ---------------------------------------------------------------------
  // Python's str.split() with no separator
  // ---------------------------------------------------------------------

  /** The characters Python's str.isspace() accepts. */
  predicate IsSpace(c: char) {
    var n := c as int;
    (9 <= n <= 13) || (28 <= n <= 32) || n == 0x85 || n == 0xA0 || n == 0x1680
    || (0x2000 <= n <= 0x200A) || n == 0x2028 || n == 0x2029 || n == 0x202F
    || n == 0x205F || n == 0x3000
  }

  /** A token str.split() can produce: non-empty, without whitespace. */
  predicate IsWord(w: string) {
    |w| > 0 && forall i :: 0 <= i < |w| ==> !IsSpace(w[i])
  }

  /** The number of whitespace characters `s` starts with. */
  function LeadingSpaces(s: string): (n: nat)
    ensures n <= |s|
    ensures forall i :: 0 <= i < n ==> IsSpace(s[i])
    ensures n < |s| ==> !IsSpace(s[n])
  {
    if s != [] && IsSpace(s[0]) then 1 + LeadingSpaces(s[1..]) else 0
  }

  /** The length of the longest whitespace-free prefix of `s`. */
  function WordLength(s: string): (n: nat)
    ensures n <= |s|
    ensures forall i :: 0 <= i < n ==> !IsSpace(s[i])
    ensures n < |s| ==> IsSpace(s[n])
  {
    if s != [] && !IsSpace(s[0]) then 1 + WordLength(s[1..]) else 0
  }

  /** Python's `s.split()`: the maximal runs of non-whitespace characters, in order. */
  function Split(s: string): (r: seq<string>)
    ensures forall k :: 0 <= k < |r| ==> IsWord(r[k])
    decreases |s|
  {
    var t := s[LeadingSpaces(s)..];
    if t == [] then []
    else
      var n := WordLength(t);
      [t[..n]] + Split(t[n..])
  }

  /** The words joined by single spaces: the inverse of Split on words. */
  function JoinWords(ws: seq<string>): string {
    if |ws| == 0 then ""
    else if |ws| == 1 then ws[0]
    else ws[0] + " " + JoinWords(ws[1..])
  }

  /** A word followed by whitespace or nothing: WordLength stops exactly at the word's end. */
  lemma {:induction false} WordLengthOfWord(w: string, rest: string)
    requires IsWord(w)
    requires rest == [] || IsSpace(rest[0])
    ensures WordLength(w + rest) == |w|
  {
    assert (w + rest)[0] == w[0];
    if |w| > 1 {
      assert (w + rest)[1..] == w[1..] + rest;
      assert IsWord(w[1..]) by {
        assert forall i :: 0 <= i < |w| - 1 ==> w[1..][i] == w[i + 1];
      }
      WordLengthOfWord(w[1..], rest);
    } else {
      assert (w + rest)[1..] == rest;
    }
  }

  /** Splitting words joined by single spaces gives the words back. */
  lemma {:induction false} SplitJoinWords(ws: seq<string>)
    requires forall k :: 0 <= k < |ws| ==> IsWord(ws[k])
    ensures Split(JoinWords(ws)) == ws
  {
    if |ws| == 0 {
    } else if |ws| == 1 {
      var w := ws[0];
      WordLengthOfWord(w, "");
      assert w + "" == w;
      assert LeadingSpaces(w) == 0;
      assert w[|w|..] == [];
    } else {
      var w := ws[0];
      var tail := JoinWords(ws[1..]);
      var s := w + " " + tail;
      assert s == w + (" " + tail);
      WordLengthOfWord(w, " " + tail);
      assert LeadingSpaces(s) == 0;
      assert s[|w|..] == " " + tail;
      assert s[..|w|] == w;
      assert (" " + tail)[1..] == tail;
      assert LeadingSpaces(" " + tail) == 1 + LeadingSpaces(tail);
      SplitJoinWords(ws[1..]);
    }
  }

  /** Whitespace in front of a string only adds to its leading whitespace. */
  lemma {:induction false} LeadingSpacesOfSpace(sp: string, s: string)
    requires forall i :: 0 <= i < |sp| ==> IsSpace(sp[i])
    ensures LeadingSpaces(sp + s) == |sp| + LeadingSpaces(s)
  {
    if sp == [] {
      assert sp + s == s;
    } else {
      assert (sp + s)[0] == sp[0];
      assert (sp + s)[1..] == sp[1..] + s;
      LeadingSpacesOfSpace(sp[1..], s);
    }
  }

  /** Whitespace in front of a string does not change how it splits. */
  lemma {:induction false} SplitSkipsSpace(sp: string, s: string)
    requires forall i :: 0 <= i < |sp| ==> IsSpace(sp[i])
    ensures Split(sp + s) == Split(s)
  {
    var n := LeadingSpaces(s);
    LeadingSpacesOfSpace(sp, s);
    assert LeadingSpaces(sp + s) == |sp| + n;
    assert (sp + s)[|sp| + n..] == s[n..];
  }

  /** A string of whitespace alone, of any kind and length, has no tokens. */
  lemma {:induction false} SplitAllSpace(sp: string)
    requires forall i :: 0 <= i < |sp| ==> IsSpace(sp[i])
    ensures Split(sp) == []
  {
    SplitSkipsSpace(sp, "");
    assert sp + "" == sp;
  }

  /**
   * A word followed by any non-empty run of whitespace is the first token, and
   * splitting carries on after the run.
   */
  lemma {:induction false} SplitWord(w: string, sp: string, s: string)
    requires IsWord(w) && |sp| > 0 && forall i :: 0 <= i < |sp| ==> IsSpace(sp[i])
    ensures Split(w + sp + s) == [w] + Split(s)
  {
    var t := w + sp + s;
    assert t == w + (sp + s);
    assert t[0] == w[0];
    assert LeadingSpaces(t) == 0;
    WordLengthOfWord(w, sp + s);
    assert t[..|w|] == w;
    assert t[|w|..] == sp + s;
    SplitSkipsSpace(sp, s);
  }

  // ---------------------------------------------------------------------
  // convert
  // ---------------------------------------------------------------------

  /**
   * `convert(date)`: day token, month number and year joined with dashes.
   * The day is taken as it is; only the month is looked up.
   */
  function Convert(date: string): (r: Result<string, ConvertError>)
    ensures |Split(date)| < 2 <==> r == Err(IndexError)
    ensures r.Err? && r.error.KeyError? <==> |Split(date)| >= 2 && Split(date)[1] !in MONTHS
    ensures r.Err? && r.error.KeyError? ==> r.error.key == Split(date)[1]
    ensures r.Ok? ==> |r.value| >= 5 && r.value[|r.value| - 5..] == "-" + YEAR
  {
    var tokens := Split(date);
    if |tokens| < 2 then Err(IndexError)
    else if tokens[1] !in MONTHS then Err(KeyError(tokens[1]))
    else
      var s := tokens[0] + "-" + MONTHS[tokens[1]] + "-" + YEAR;
      assert s[|s| - 5..] == "-" + YEAR;
      Ok(s)
  }

  /** The month number a month name maps to: the two-digit code of its position, January first. */
  lemma MonthNumbers()
    ensures MONTHS.Keys == {"January", "February", "March", "April", "May", "June", "July"}
    ensures forall m :: m in MONTHS ==> |MONTHS[m]| == 2 && MONTHS[m][0] == '0' && '1' <= MONTHS[m][1] <= '7'
    ensures MONTHS["January"] == "01" && MONTHS["July"] == "07"
  {
  }

  /** No two months share a number. */
  lemma MonthsInjective(m1: string, m2: string)
    requires m1 in MONTHS && m2 in MONTHS && m1 != m2
    ensures MONTHS[m1] != MONTHS[m2]
  {
  }

  /** The month name a two-digit month number stands for: the inverse of MONTHS. */
  function MonthName(code: string): (r: Option<string>)
    ensures r.Some? ==> r.value in MONTHS && MONTHS[r.value] == code
  {
    if code == "01" then Some("January")
    else if code == "02" then Some("February")
    else if code == "03" then Some("March")
    else if code == "04" then Some("April")
    else if code == "05" then Some("May")
    else if code == "06" then Some("June")
    else if code == "07" then Some("July")
    else None
  }

  /** Reads a converted date "DD-MM-2020" back as "DD MonthName". */
  function Unconvert(s: string): (r: Option<string>) {
    if |s| < 9 || s[|s| - 5..] != "-" + YEAR || s[|s| - 8] != '-' then None
    else match MonthName(s[|s| - 7..|s| - 5])
      case None => None
      case Some(m) => Some(s[..|s| - 8] + " " + m)
  }

  /** A label "day month ..." converts to day, the month's number and 2020; later tokens are ignored. */
  lemma {:induction false} ConvertWords(day: string, month: string, rest: seq<string>)
    requires IsWord(day) && IsWord(month)
    requires forall k :: 0 <= k < |rest| ==> IsWord(rest[k])
    ensures month in MONTHS ==> Convert(JoinWords([day, month] + rest)) == Ok(day + "-" + MONTHS[month] + "-" + YEAR)
    ensures month !in MONTHS ==> Convert(JoinWords([day, month] + rest)) == Err(KeyError(month))
  {
    var ws := [day, month] + rest;
    assert ws[0] == day && ws[1] == month;
    assert forall k :: 2 <= k < |ws| ==> ws[k] == rest[k - 2];
    SplitJoinWords(ws);
  }

  /** Round trip: a well-formed label converts, and the result reads back as day and month. */
  lemma {:induction false} ConvertRoundTrip(day: string, month: string)
    requires IsWord(day) && month in MONTHS
    ensures Convert(day + " " + month).Ok?
    ensures Unconvert(Convert(day + " " + month).value) == Some(day + " " + month)
  {
    MonthNumbers();
    ConvertWords(day, month, []);
    assert JoinWords([day, month] + []) == day + " " + month by {
      assert [day, month] + [] == [day, month];
      assert [day, month][1..] == [month];
    }
    var code := MONTHS[month];
    var s := day + "-" + code + "-" + YEAR;
    assert Convert(day + " " + month).value == s;
    assert |s| == |day| + 8;
    assert s[|s| - 5..] == "-" + YEAR;
    assert s[|s| - 8] == '-';
    assert s[|s| - 7..|s| - 5] == code;
    assert s[..|s| - 8] == day;
    MonthNameInverse(month);
  }

  /** MonthName undoes the month table. */
  lemma MonthNameInverse(month: string)
    requires month in MONTHS
    ensures MonthName(MONTHS[month]) == Some(month)
  {
  }

  /** Inverse round trip: every string Unconvert reads, with a whitespace-free day, converts back to itself. */
  lemma {:induction false} UnconvertRoundTrip(s: string)
    requires Unconvert(s).Some?
    requires IsWord(s[..|s| - 8])
    ensures Convert(Unconvert(s).value) == Ok(s)
  {
    var day := s[..|s| - 8];
    var code := s[|s| - 7..|s| - 5];
    var month := MonthName(code).value;
    MonthNumbers();
    assert IsWord(month);
    ConvertWords(day, month, []);
    assert JoinWords([day, month] + []) == day + " " + month by {
      assert [day, month] + [] == [day, month];
      assert [day, month][1..] == [month];
    }
    assert Unconvert(s).value == day + " " + month;
    assert s == day + "-" + code + "-" + YEAR;
  }

  /** Same day, different months: different outputs. */
  lemma {:induction false} ConvertInjectiveInMonth(day: string, m1: string, m2: string)
    requires IsWord(day) && m1 in MONTHS && m2 in MONTHS && m1 != m2
    ensures Convert(day + " " + m1) != Convert(day + " " + m2)
  {
    ConvertRoundTrip(day, m1);
    ConvertRoundTrip(day, m2);
    assert (day + " " + m1)[|day| + 1..] == m1;
    assert (day + " " + m2)[|day| + 1..] == m2;
  }

  /** convert sees its input only through its tokens: any whitespace converts as single spaces do. */
  lemma ConvertNormalises(s: string)
    ensures Convert(s) == Convert(JoinWords(Split(s)))
  {
    SplitJoinWords(Split(s));
  }

  /** A word followed only by whitespace, if anything, is the single token. */
  lemma {:induction false} SplitWordThenSpace(w: string, sp: string)
    requires IsWord(w) && forall i :: 0 <= i < |sp| ==> IsSpace(sp[i])
    ensures Split(w + sp) == [w]
  {
    if sp == [] {
      assert w + sp == JoinWords([w]);
      SplitJoinWords([w]);
    } else {
      assert w + sp == w + sp + "";
      SplitWord(w, sp, "");
      assert Split("") == [];
    }
  }

  /** Two words separated by whitespace, with only whitespace after them, are exactly two tokens. */
  lemma {:induction false} SplitTwoWords(day: string, mid: string, month: string, trail: string)
    requires |mid| > 0 && forall i :: 0 <= i < |mid| ==> IsSpace(mid[i])
    requires forall i :: 0 <= i < |trail| ==> IsSpace(trail[i])
    requires IsWord(day) && IsWord(month)
    ensures Split(day + mid + (month + trail)) == [day, month]
  {
    SplitWordThenSpace(month, trail);
    SplitWord(day, mid, month + trail);
  }

  /** Any whitespace before, between and after two words separates exactly those two tokens. */
  lemma {:induction false} SplitAnySpacing(lead: string, day: string, mid: string, month: string, trail: string)
    requires forall i :: 0 <= i < |lead| ==> IsSpace(lead[i])
    requires |mid| > 0 && forall i :: 0 <= i < |mid| ==> IsSpace(mid[i])
    requires forall i :: 0 <= i < |trail| ==> IsSpace(trail[i])
    requires IsWord(day) && IsWord(month)
    ensures Split(lead + day + mid + month + trail) == [day, month]
  {
    var body := day + mid + (month + trail);
    assert lead + day + mid + month + trail == lead + body;
    SplitTwoWords(day, mid, month, trail);
    SplitSkipsSpace(lead, body);
  }

  /**
   * Leading, trailing, repeated and non-space whitespace around the two tokens
   * leave the conversion as it is for a single space between them.
   */
  lemma {:induction false} ConvertAnySpacing(lead: string, day: string, mid: string, month: string, trail: string)
    requires forall i :: 0 <= i < |lead| ==> IsSpace(lead[i])
    requires |mid| > 0 && forall i :: 0 <= i < |mid| ==> IsSpace(mid[i])
    requires forall i :: 0 <= i < |trail| ==> IsSpace(trail[i])
    requires IsWord(day) && IsWord(month)
    ensures Convert(lead + day + mid + month + trail) == Convert(day + " " + month)
  {
    SplitAnySpacing(lead, day, mid, month, trail);
    assert day + " " + month == JoinWords([day, month]);
    SplitJoinWords([day, month]);
  }

  /** The worked example: "30 January" becomes "30-01-2020". */
  lemma ConvertExample()
    ensures Convert("30 January") == Ok("30-01-2020")
  {
    ConvertWords("30", "January", []);
    assert JoinWords(["30", "January"] + []) == "30 January";
    assert MONTHS["January"] == "01";
    assert "30" + "-" + "01" + "-" + YEAR == "30-01-2020";
  }

  /** A second token outside the table fails with a lookup error naming that token. */
  lemma {:induction false} ConvertUnknownMonth(day: string, month: string)
    requires IsWord(day) && IsWord(month) && month !in MONTHS
    ensures Convert(day + " " + month) == Err(KeyError(month))
  {
    ConvertWords(day, month, []);
    assert JoinWords([day, month] + []) == day + " " + month by {
      assert [day, month] + [] == [day, month];
      assert [day, month][1..] == [month];
    }
  }

  /** Month names are matched exactly: other case, abbreviations and later months fail. */
  lemma ConvertRejectsOtherMonths(month: string)
    requires month == "january" || month == "Jan" || month == "August"
    ensures Convert("30 " + month) == Err(KeyError(month))
  {
    assert IsWord("30") && IsWord(month) && month !in MONTHS;
    assert "30" + " " + month == "30 " + month;
    ConvertUnknownMonth("30", month);
  }

  /** A label with a single token has no month and fails on the index. */
  lemma ConvertRejectsDayOnly()
    ensures Convert("30") == Err(IndexError)
  {
    SplitJoinWords(["30"]);
  }

  // ---------------------------------------------------------------------
  // get_data: convert applied to the date column
  // ---------------------------------------------------------------------

  /** One row of the national feed: its date label and its other cells by column name. */
  datatype CaseRow = CaseRow(date: string, others: map<string, string>)

  /**
   * `india_data['date'].apply(convert)` written back to the `date` column:
   * rows are converted in order and the first failing row's exception propagates.
   */
  function ConvertDates(rows: seq<CaseRow>): (r: Result<seq<CaseRow>, ConvertError>)
    ensures r.Ok? <==> forall i :: 0 <= i < |rows| ==> Convert(rows[i].date).Ok?
    ensures r.Ok? ==> |r.value| == |rows|
    ensures r.Ok? ==> forall i :: 0 <= i < |rows| ==>
                        r.value[i].others == rows[i].others && Convert(rows[i].date) == Ok(r.value[i].date)
    ensures r.Err? ==> exists i :: 0 <= i < |rows| && Convert(rows[i].date) == Err(r.error)
                          && forall k :: 0 <= k < i ==> Convert(rows[k].date).Ok?
  {
    if |rows| == 0 then Ok([])
    else match Convert(rows[0].date)
      case Err(e) => Err(e)
      case Ok(d) =>
        match ConvertDates(rows[1..])
        case Err(e) => 
          assert forall i :: 1 <= i < |rows| ==> rows[i] == rows[1..][i - 1];
          Err(e)
        case Ok(tail) =>
          assert forall i :: 1 <= i < |rows| ==> rows[i] == rows[1..][i - 1];
          Ok([CaseRow(d, rows[0].others)] + tail)
  }
}
