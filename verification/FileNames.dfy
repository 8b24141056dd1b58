/** Names of rotated files: the index goes between the base name and the extension. */
module FileNames {
  import opened Decimal

  const FOLDER_SEP := '/'

  /** The last place of c in s, or -1. */
  function LastOf(s: string, c: char): (r: int)
    ensures -1 <= r < |s| && (r >= 0 ==> s[r] == c)
    ensures forall i :: r < i < |s| ==> s[i] != c
  {
    if s == [] then -1
    else if s[|s| - 1] == c then |s| - 1
    else LastOf(s[..|s| - 1], c)
  }

  function SplitByExtension(name: string): (parts: (string, string))
    ensures parts.0 + parts.1 == name
  {
    var dot := LastOf(name, '.');
    if dot == -1 || dot == 0 || dot == |name| - 1 then (name, "")
    else
      var folder := LastOf(name, FOLDER_SEP);
      if folder != -1 && folder >= dot - 1 then (name, "") else (name[..dot], name[dot..])
  }

  /** A file name that is not hidden, and an extension of at least one character after its dot. */
  predicate IsExtended(stem: string, ext: string) {
    && stem != "" && stem[|stem| - 1] != FOLDER_SEP
    && |ext| >= 2 && ext[0] == '.'
    && forall i :: 1 <= i < |ext| ==> ext[i] != '.' && ext[i] != FOLDER_SEP
  }

  /** The split finds the extension exactly when there is one. */
  lemma SplitFindsExtension(name: string, stem: string, ext: string)
    ensures ext != "" ==> (SplitByExtension(name) == (stem, ext) <==> name == stem + ext && IsExtended(stem, ext))
  {
    if SplitByExtension(name) == (stem, ext) && ext != "" {
      var dot := LastOf(name, '.');
      assert name[dot - 1] == stem[|stem| - 1];
    }
    if name == stem + ext && IsExtended(stem, ext) {
      var dot, folder := LastOf(name, '.'), LastOf(name, FOLDER_SEP);
      assert name[|stem|] == ext[0] && name[|stem| - 1] == stem[|stem| - 1];
      forall i | |stem| < i < |name|
        ensures name[i] != '.' && name[i] != FOLDER_SEP
      {
        assert name[i] == ext[i - |stem|];
      }
      assert dot == |stem|;
      assert folder < |stem| - 1;
    }
  }

  /** The index in decimal. */
  function Numeral(n: nat): (s: string)
    ensures s != "" && AllDigits(s) && Spelled(s) == n
  {
    if n < 10 then
      assert [DigitChar(n)][..0] == "";
      [DigitChar(n)]
    else
      SpelledSnoc(Numeral(n / 10), DigitChar(n % 10));
      Numeral(n / 10) + [DigitChar(n % 10)]
  }

  function CalcFilename(name: string, index: nat): string {
    if index == 0 then name
    else var parts := SplitByExtension(name); parts.0 + "." + Numeral(index) + parts.1
  }

  /** The index goes before the extension, which stays the extension of the new name. */
  lemma ExtensionKept(name: string, index: nat)
    requires index > 0
    ensures var parts := SplitByExtension(name);
      && (parts.1 != "" ==> SplitByExtension(CalcFilename(name, index)) == (parts.0 + "." + Numeral(index), parts.1))
      && (parts.1 == "" ==> CalcFilename(name, index) == name + "." + Numeral(index))
  {
    var parts := SplitByExtension(name);
    var stem := parts.0 + "." + Numeral(index);
    if parts.1 != "" {
      SplitFindsExtension(name, parts.0, parts.1);
      assert stem[|stem| - 1] == Numeral(index)[|Numeral(index)| - 1];
      assert IsDigit(stem[|stem| - 1]);
      assert IsExtended(stem, parts.1);
      SplitFindsExtension(CalcFilename(name, index), stem, parts.1);
    } else {
      assert parts.0 == name;
      assert stem + "" == stem;
    }
  }

  /** Different indices make different files. */
  lemma NamesDiffer(name: string, i: nat, j: nat)
    requires CalcFilename(name, i) == CalcFilename(name, j)
    ensures i == j
  {
    var parts := SplitByExtension(name);
    if i == 0 || j == 0 {
      assert |parts.0 + "." + Numeral(i) + parts.1| > |name|;
      assert |parts.0 + "." + Numeral(j) + parts.1| > |name|;
    } else {
      SameMiddle(parts.0 + ".", Numeral(i), Numeral(j), parts.1);
    }
  }

  lemma SameMiddle(before: string, a: string, b: string, after: string)
    requires before + a + after == before + b + after
    ensures a == b
  {
    var n := |before|;
    assert |before + a + after| == |before + b + after|;
    assert a == (before + a + after)[n..n + |a|];
    assert b == (before + b + after)[n..n + |b|];
  }
}
