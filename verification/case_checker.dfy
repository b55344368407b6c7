/**
 `case_checker.py`: read the cause list, ask for a case number, and say
 whether that case is listed tomorrow. Reading `cause_list.json`, the
 keyboard and the clock are parameters: the parsed file (absent when it does
 not exist), the typed line, and tomorrow's date as `%d-%m-%Y`.
 */
module CaseChecker {
  import opened Results
  import Text
  import Scraper

  /** One entry of the cause list as `json.load` returns it, by its string-valued fields. */
  type CaseObject = map<string, string>

  /** `case.get(key, '')`. */
  function Field(c: CaseObject, key: string): (v: string)
    ensures key !in c ==> v == ""
    ensures key in c ==> v == c[key]
  {
    if key in c then c[key] else ""
  }

  /** What `check_case` prints. */
  datatype Verdict = FileMissing | Listed | NotListed

  /**
   The test in `check_case`'s loop for one case, `wanted` being the already
   stripped input: the stored case number, stripped and lower-cased, equals
   the lower-cased input, and tomorrow's date occurs in the listing date.
   */
  predicate ListedTomorrow(c: CaseObject, wanted: string, tomorrow: string) {
    && Text.Lower(Text.Strip(Field(c, "case_number"))) == Text.Lower(wanted)
    && Text.Contains(Field(c, "date_of_listing"), tomorrow)
  }

  /** The loop of `check_case` from index `k` on: does some element there pass the test `p`? */
  function AnyFrom<T>(xs: seq<T>, k: nat, p: T -> bool): (b: bool)
    requires k <= |xs|
    ensures b <==> exists i :: k <= i < |xs| && p(xs[i])
    decreases |xs| - k
  {
    if k == |xs| then false
    else p(xs[k]) || AnyFrom(xs, k + 1, p)
  }

  /**
   `check_case`: no verdict without the file; otherwise "listed" exactly
   when some case passes the test for the stripped input.
   */
  function CheckCase(file: Option<seq<CaseObject>>, input: string, tomorrow: string): (v: Verdict)
    ensures v == FileMissing <==> file.None?
    ensures file.Some? ==>
      (v == Listed <==> exists i :: 0 <= i < |file.value| && ListedTomorrow(file.value[i], Text.Strip(input), tomorrow))
    ensures file == Some([]) ==> v == NotListed
  {
    match file
    case None => FileMissing
    case Some(cases) =>
      var wanted := Text.Strip(input);
      if AnyFrom(cases, 0, (c: CaseObject) => ListedTomorrow(c, wanted, tomorrow)) then Listed else NotListed
  }

  /** The input's letter case does not matter. */
  lemma InputCaseInsensitive(file: Option<seq<CaseObject>>, x: string, y: string, tomorrow: string)
    requires Text.Lower(x) == Text.Lower(y)
    ensures CheckCase(file, x, tomorrow) == CheckCase(file, y, tomorrow)
  {
    Text.LowerStripCommute(x);
    Text.LowerStripCommute(y);
    assert Text.Lower(Text.Strip(x)) == Text.Lower(Text.Strip(y));
  }

  /** Whitespace typed around the case number does not matter. */
  lemma InputPaddingIgnored(file: Option<seq<CaseObject>>, p: string, x: string, q: string, tomorrow: string)
    requires Text.AllSpace(p) && Text.AllSpace(q)
    ensures CheckCase(file, p + x + q, tomorrow) == CheckCase(file, x, tomorrow)
  {
    Text.StripPadded(p, x, q);
  }

  /**
   The date test is containment, not equality: a listing date with anything
   around tomorrow's date (a time, say) still counts, for a case whose
   stored number matches the input.
   */
  lemma DateContainsTomorrow(c: CaseObject, input: string, before: string, tomorrow: string, after: string)
    requires Field(c, "date_of_listing") == before + tomorrow + after
    requires Text.Lower(Text.Strip(Field(c, "case_number"))) == Text.Lower(Text.Strip(input))
    ensures CheckCase(Some([c]), input, tomorrow) == Listed
  {
    Text.ContainsMiddle(before, tomorrow, after);
    assert ListedTomorrow([c][0], Text.Strip(input), tomorrow);
  }

  /** A case without a `case_number` matches only an input that is blank once stripped. */
  lemma MissingCaseNumber(c: CaseObject, wanted: string, tomorrow: string)
    requires "case_number" !in c
    requires ListedTomorrow(c, wanted, tomorrow)
    ensures wanted == ""
  {
    assert |Text.Lower(wanted)| == |Text.Lower(Text.Strip(""))|;
    assert Text.Strip("") == Text.Strip([] + [] + []);
    Text.StripUnique([], [], []);
  }

  /**
   Every case the sample scraper writes is reported as listed tomorrow when
   its number is typed on the same day the list was generated.
   */
  lemma SampleCasesListed(tomorrow: string, now: string, i: int)
    requires 0 <= i < 4
    ensures var d := Scraper.SampleData(tomorrow, now);
      CheckCase(Some(Scraper.AsObjects(d)), d[i].caseNumber, tomorrow) == Listed
  {
    var d := Scraper.SampleData(tomorrow, now);
    var objs := Scraper.AsObjects(d);
    var n := d[i].caseNumber;
    assert Text.Trimmed(n);
    assert n == [] + n + [];
    Text.StripUnique([], n, []);
    Text.ContainsMiddle([], tomorrow, []);
    assert [] + tomorrow + [] == tomorrow;
    assert ListedTomorrow(objs[i], Text.Strip(n), tomorrow);
  }
}
