/**
 * Configuration property maps (src/common/util/config_helper.cpp): a
 * Properties value maps a name to the list of its occurrences, each
 * occurrence being the list of values written after the name on one line.
 */
module ConfigHelper {
  import opened Wrappers
  import opened Strings

  type ConfItems = seq<string>
  type ConfItemsArray = seq<ConfItems>
  type Properties = map<string, ConfItemsArray>
  type IniProperties = map<string, Properties>

  /** What a conf_get_* call returns, and the value it leaves in its out-parameter. */
  datatype Got<T> = Got(ok: bool, value: T)

  const KB: int := 1024
  const MB: int := 1024 * 1024
  const GB: int := 1024 * 1024 * 1024

  /** std::string::npos, the size_t all-ones value find() reports for "not found". */
  const NPOS: int := 0xFFFF_FFFF_FFFF_FFFF

  predicate HasItems(conf: Properties, name: string) {
    name in conf && |conf[name]| > 0
  }

  /** The first occurrence's first value can be read (found->second[0][0]). */
  predicate Readable(conf: Properties, name: string) {
    HasItems(conf, name) ==> |conf[name][0]| > 0
  }

  /** Every occurrence of every name carries at least one value. */
  ghost predicate WellFormed(conf: Properties) {
    forall k, i :: k in conf && 0 <= i < |conf[k]| ==> |conf[k][i]| > 0
  }

  function Items(conf: Properties, name: string): ConfItemsArray {
    if name in conf then conf[name] else []
  }

  // ---------------------------------------------------------------------
  // Lookups
  // ---------------------------------------------------------------------

  /** conf_get_string */
  function ConfGetString(conf: Properties, name: string, value: string, ignoreNonexist: bool): (r: Got<string>)
    requires Readable(conf, name)
    ensures !HasItems(conf, name) ==> r == Got(ignoreNonexist, value)
    ensures HasItems(conf, name) ==> r.ok && r.value == conf[name][0][0]
  {
    if !HasItems(conf, name) then Got(ignoreNonexist, value) else Got(true, conf[name][0][0])
  }

  predicate IsTrueWord(s: string) {
    EqualsIgnoreCase(s, "true") || EqualsIgnoreCase(s, "1") || EqualsIgnoreCase(s, "yes")
  }

  /** conf_get_bool */
  function ConfGetBool(conf: Properties, name: string, value: bool, ignoreNonexist: bool): (r: Got<bool>)
    requires Readable(conf, name)
    ensures !HasItems(conf, name) ==> r == Got(ignoreNonexist, value)
    ensures HasItems(conf, name) ==> r.ok && (r.value <==> IsTrueWord(conf[name][0][0]))
  {
    if !HasItems(conf, name) then Got(ignoreNonexist, value)
    else if IsTrueWord(conf[name][0][0]) then Got(true, true)
    else Got(true, false)
  }

  /** find() as a size_t: the index of the first occurrence, or NPOS. */
  function FindPos(s: string, pat: string): int {
    match Find(s, pat, 0)
    case Some(i) => i
    case None => NPOS
  }

  /** size() - k computed in size_t, wrapping below zero. */
  function SizeMinus(s: string, k: nat): int {
    (|s| - k) % (NPOS + 1)
  }

  /** The source's suffix test `s.find(pat) == s.size() - |pat|`. */
  predicate FoundAtEnd(s: string, pat: string) {
    FindPos(s, pat) == SizeMinus(s, |pat|)
  }

  /**
   * How conf_get_int64 as written reads a value: a plain integer, or a number
   * followed by a size suffix.  atoll stores its reading into the
   * out-parameter before the suffix is judged, so a rejected value still
   * overwrites it.
   */
  function ReadInt64AsWritten(s: string): (r: Got<int>)
    ensures ParseInt64(s).Some? ==> r == Got(true, ParseInt64(s).value)
    ensures !r.ok ==> ParseInt64(s).None? && r.value == Atoll(ToUpper(s))
  {
    match ParseInt64(s)
    case Some(v) => Got(true, v)
    case None =>
      var u := ToUpper(s);
      var n := Atoll(u);
      if FoundAtEnd(u, "M") || FoundAtEnd(u, "MB") then Got(true, n * MB)
      else if FoundAtEnd(u, "G") || FoundAtEnd(u, "GB") then Got(true, n * GB)
      else if FoundAtEnd(u, "K") || FoundAtEnd(u, "KB") then Got(true, n * KB)
      else Got(false, n)
  }

  /** conf_get_int64 as written. */
  function ConfGetInt64AsWritten(conf: Properties, name: string, value: int, ignoreNonexist: bool): (r: Got<int>)
    requires Readable(conf, name)
    ensures !HasItems(conf, name) ==> r == Got(ignoreNonexist, value)
    ensures HasItems(conf, name) ==> r == ReadInt64AsWritten(conf[name][0][0])
  {
    if !HasItems(conf, name) then Got(ignoreNonexist, value)
    else ReadInt64AsWritten(conf[name][0][0])
  }

  predicate EndsWith(s: string, suffix: string) {
    |suffix| <= |s| && s[|s| - |suffix|..] == suffix
  }

  /** The multiplier a size suffix stands for, if the upper-cased text ends with one. */
  function SuffixScale(u: string): Option<int> {
    if EndsWith(u, "M") || EndsWith(u, "MB") then Some(MB)
    else if EndsWith(u, "G") || EndsWith(u, "GB") then Some(GB)
    else if EndsWith(u, "K") || EndsWith(u, "KB") then Some(KB)
    else None
  }

  /** A multiplier is found exactly when the text ends with one of the size suffixes. */
  lemma SuffixScaleFound(u: string)
    ensures SuffixScale(u).Some? <==> exists k :: IsSizeSuffix(k) && EndsWith(u, k)
  {
    if SuffixScale(u).Some? {
      var k := ScaleWitness(u);
    }
    forall k | IsSizeSuffix(k) && EndsWith(u, k) ensures SuffixScale(u).Some? {
      ScaleOfWitness(u, k);
    }
  }

  lemma ScaleWitness(u: string) returns (k: string)
    requires SuffixScale(u).Some?
    ensures IsSizeSuffix(k) && EndsWith(u, k)
  {
    k := if EndsWith(u, "M") then "M" else if EndsWith(u, "MB") then "MB"
         else if EndsWith(u, "G") then "G" else if EndsWith(u, "GB") then "GB"
         else if EndsWith(u, "K") then "K" else "KB";
  }

  lemma ScaleOfWitness(u: string, k: string)
    requires IsSizeSuffix(k) && EndsWith(u, k)
    ensures SuffixScale(u).Some?
  {
    assert k == "K" || k == "KB" || k == "M" || k == "MB" || k == "G" || k == "GB";
  }



  /** How conf_get_int64 as evidently intended reads a value: the suffix test is a true "ends with". */
  function ReadInt64(s: string): (r: Got<int>)
    ensures ParseInt64(s).Some? ==> r == Got(true, ParseInt64(s).value)
    ensures ParseInt64(s).None? ==> (r.ok <==> SuffixScale(ToUpper(s)).Some?)
    ensures ParseInt64(s).None? && !r.ok ==> r.value == Atoll(ToUpper(s))
  {
    match ParseInt64(s)
    case Some(v) => Got(true, v)
    case None =>
      var u := ToUpper(s);
      var n := Atoll(u);
      match SuffixScale(u)
      case Some(scale) => Got(true, n * scale)
      case None => Got(false, n)
  }

  /** conf_get_int64 as evidently intended. */
  function ConfGetInt64(conf: Properties, name: string, value: int, ignoreNonexist: bool): (r: Got<int>)
    requires Readable(conf, name)
    ensures !HasItems(conf, name) ==> r == Got(ignoreNonexist, value)
    ensures HasItems(conf, name) ==> r == ReadInt64(conf[name][0][0])
  {
    if !HasItems(conf, name) then Got(ignoreNonexist, value)
    else ReadInt64(conf[name][0][0])
  }

  /** The size suffixes the source recognises, in upper case. */
  predicate IsSizeSuffix(suffix: string) {
    suffix in ["K", "KB", "M", "MB", "G", "GB"]
  }

  function ScaleOf(suffix: string): int
    requires IsSizeSuffix(suffix)
  {
    if suffix[0] == 'K' then KB else if suffix[0] == 'M' then MB else GB
  }

  lemma {:induction false} ToUpperDigits(d: string)
    requires AllDigits(d)
    ensures ToUpper(d) == d
  {
  }

  lemma ToUpperConcat(a: string, b: string)
    ensures ToUpper(a + b) == ToUpper(a) + ToUpper(b)
  {
  }

  /** A digit-led text cannot hide a letter-led pattern before its digits end. */
  lemma FindAfterDigits(d: string, suffix: string, pat: string)
    requires AllDigits(d) && |pat| > 0 && !IsDigit(pat[0]) && |d| + |suffix| < NPOS
    ensures FindPos(d + suffix, pat) ==
              (if FindPos(suffix, pat) == NPOS then NPOS else |d| + FindPos(suffix, pat))
  {
    var s := d + suffix;
    forall j | 0 <= j < |d| ensures !OccursAt(s, pat, j) {
      assert s[j] == d[j];
      if j + |pat| <= |s| {
        assert s[j..j + |pat|][0] == s[j];
      }
    }
    forall j: nat | |d| <= j ensures OccursAt(s, pat, j) <==> OccursAt(suffix, pat, j - |d|) {
      if j + |pat| <= |s| {
        assert s[j..j + |pat|] == suffix[j - |d|..j - |d| + |pat|];
      }
    }
    match Find(suffix, pat, 0)
    case None =>
      assert Find(s, pat, 0) == None;
    case Some(i) =>
      assert OccursAt(s, pat, |d| + i);
      forall j | |d| <= j < |d| + i ensures !OccursAt(s, pat, j) {
        assert !OccursAt(suffix, pat, j - |d|);
      }
      FindIs(s, pat, 0, |d| + i);
  }

  /** After a run of digits, the source's suffix test reduces to the same test on the suffix alone. */
  lemma FoundAtEndAfterDigits(d: string, suffix: string, pat: string)
    requires AllDigits(d) && |d| >= 1 && |pat| > 0 && !IsDigit(pat[0])
    requires |pat| <= |d| + |suffix| < NPOS
    ensures FoundAtEnd(d + suffix, pat) <==> FindPos(suffix, pat) == |suffix| - |pat|
  {
    FindAfterDigits(d, suffix, pat);
    assert SizeMinus(d + suffix, |pat|) == |d| + |suffix| - |pat|;
  }

  /** How "<digits><letters>" reads before its suffix is judged. */
  lemma NumberThenLetters(n: nat, suffix: string)
    requires suffix != [] && !IsDigit(suffix[0]) && !IsDigit(Upper(suffix[0]))
    ensures ParseInt64(NatToString(n) + suffix) == None
    ensures ToUpper(NatToString(n) + suffix) == NatToString(n) + ToUpper(suffix)
    ensures Atoll(NatToString(n) + ToUpper(suffix)) == n
  {
    var d := NatToString(n);
    var s := d + suffix;
    assert s[|d|] == suffix[0];
    assert s[0] == d[0];
    assert s[1..][|d| - 1] == suffix[0];
    ToUpperConcat(d, suffix);
    ToUpperDigits(d);
    AtollOfNumberThen(n, ToUpper(suffix));
  }

  /** "<n><suffix>" reads as n scaled by the suffix, case-insensitively. */
  lemma SizeSuffixScaled(n: nat, suffix: string)
    requires IsSizeSuffix(ToUpper(suffix))
    ensures ReadInt64(NatToString(n) + suffix) == Got(true, n * ScaleOf(ToUpper(suffix)))
  {
    var up := ToUpper(suffix);
    assert up[0] == Upper(suffix[0]);
    NumberThenLetters(n, suffix);
    SuffixScaleAfterDigits(NatToString(n), up);
  }

  /** Behind a run of digits, a letter-led pattern ends the text exactly when it ends what follows the digits. */
  lemma EndsWithAfterDigits(d: string, t: string, k: string)
    requires AllDigits(d) && |d| >= 1 && 1 <= |k| <= |t| + 1 && !IsDigit(k[0])
    ensures EndsWith(d + t, k) <==> EndsWith(t, k)
  {
    var s := d + t;
    if |k| <= |t| {
      assert s[|s| - |k|..] == t[|t| - |k|..];
    } else {
      assert s[|s| - |k|..][0] == d[|d| - 1];
    }
  }

  lemma SuffixScaleAfterDigits(d: string, up: string)
    requires AllDigits(d) && |d| >= 1 && IsSizeSuffix(up)
    ensures SuffixScale(d + up) == Some(ScaleOf(up))
  {
    EndsWithAfterDigits(d, up, "M");
    EndsWithAfterDigits(d, up, "MB");
    EndsWithAfterDigits(d, up, "G");
    EndsWithAfterDigits(d, up, "GB");
    EndsWithAfterDigits(d, up, "K");
    EndsWithAfterDigits(d, up, "KB");
    assert SuffixScale(d + up) == SuffixScale(up);
    SuffixScaleOfSuffix(up);
  }

  lemma SuffixScaleOfSuffix(up: string)
    requires IsSizeSuffix(up)
    ensures SuffixScale(up) == Some(ScaleOf(up))
  {
    assert up[0..] == up;
    if |up| == 2 {
      assert up[1] == 'B' && up[1..] == "B";
    }
    assert EndsWith(up, "M") || EndsWith(up, "MB") <==> up[0] == 'M';
    assert EndsWith(up, "G") || EndsWith(up, "GB") <==> up[0] == 'G';
  }

  /**
   * The two readings agree on every "<n><suffix>" value written with an
   * upper-case suffix (a std::string is always shorter than npos).
   */
  lemma AsWrittenAgreesOnSizes(n: nat, suffix: string)
    requires IsSizeSuffix(suffix) && |NatToString(n) + suffix| < NPOS
    ensures ReadInt64AsWritten(NatToString(n) + suffix) == Got(true, n * ScaleOf(suffix))
  {
    var d := NatToString(n);
    var u := d + suffix;
    NumberThenLetters(n, suffix);
    UpperSizeSuffix(suffix);
    assert ToUpper(u) == u && Atoll(u) == n;
    AsWrittenScales(d, suffix);
  }

  lemma AsWrittenScales(d: string, suffix: string)
    requires AllDigits(d) && |d| >= 1 && IsSizeSuffix(suffix) && |d| + |suffix| < NPOS
    requires ParseInt64(d + suffix).None? && ToUpper(d + suffix) == d + suffix
    ensures ReadInt64AsWritten(d + suffix) == Got(true, Atoll(d + suffix) * ScaleOf(suffix))
  {
    if suffix[0] == 'M' {
      ScaleHit(d, suffix, 'M');
    } else if suffix[0] == 'G' {
      ScaleMiss(d, suffix, 'M');
      ScaleHit(d, suffix, 'G');
    } else {
      ScaleMiss(d, suffix, 'M');
      ScaleMiss(d, suffix, 'G');
      ScaleHit(d, suffix, 'K');
    }
  }

  /** A suffix starting with `c` is found at the end as "c" or as "cB". */
  lemma ScaleHit(d: string, suffix: string, c: char)
    requires AllDigits(d) && |d| >= 1 && IsSizeSuffix(suffix) && |d| + |suffix| < NPOS
    requires suffix[0] == c
    ensures FoundAtEnd(d + suffix, [c]) || FoundAtEnd(d + suffix, [c, 'B'])
  {
    HitAfterDigits(d, suffix, suffix);
  }

  /** Neither "c" nor "cB" is found at the end when the suffix is neither. */
  lemma ScaleMiss(d: string, suffix: string, c: char)
    requires AllDigits(d) && |d| >= 1 && IsSizeSuffix(suffix) && |d| + |suffix| < NPOS
    requires c == 'K' || c == 'M' || c == 'G'
    requires suffix != [c] && suffix != [c, 'B']
    ensures !FoundAtEnd(d + suffix, [c]) && !FoundAtEnd(d + suffix, [c, 'B'])
  {
    HitAfterDigits(d, suffix, [c]);
    HitAfterDigits(d, suffix, [c, 'B']);
  }

  lemma UpperSizeSuffix(suffix: string)
    requires IsSizeSuffix(suffix)
    ensures ToUpper(suffix) == suffix
  {
    forall i | 0 <= i < |suffix| ensures Upper(suffix[i]) == suffix[i] {
      assert suffix[i] in "KMGB";
    }
  }

  lemma HitAfterDigits(d: string, suffix: string, pat: string)
    requires AllDigits(d) && |d| >= 1 && IsSizeSuffix(suffix) && IsSizeSuffix(pat)
    requires |d| + |suffix| < NPOS
    ensures FoundAtEnd(d + suffix, pat) <==> suffix == pat
  {
    FoundAtEndAfterDigits(d, suffix, pat);
    SuffixHit(suffix, pat);
  }

  /** Among the size suffixes, the source's find-based test singles out exactly the suffix itself. */
  lemma SuffixHit(suffix: string, pat: string)
    requires IsSizeSuffix(suffix) && IsSizeSuffix(pat)
    ensures FindPos(suffix, pat) == |suffix| - |pat| <==> suffix == pat
  {
    if suffix == pat {
      assert OccursAt(suffix, pat, 0);
    } else if |suffix| == 2 && |pat| == 1 {
      if suffix[0] == pat[0] {
        assert OccursAt(suffix, pat, 0);
      }
    } else if |suffix| == 1 && |pat| == 1 {
      assert !OccursAt(suffix, pat, 0);
    }
  }

  /**
   * On a one-character value that is not a digit, `size() - 2` wraps around to
   * npos, which is exactly what find("MB") reports when "MB" is absent, so the
   * source accepts "x" as 0 megabytes where the intended reading rejects it.
   */
  lemma OneCharValueAcceptedAsWritten()
    ensures ReadInt64AsWritten("x") == Got(true, 0)
    ensures ReadInt64("x") == Got(false, 0)
  {
    OneCharReadings();
    assert FoundAtEnd("X", "MB");
  }

  /**
   * A suffix letter that also occurs earlier in the text is found there
   * first, so the source's find-based test misses it: "<n>MM" (such as
   * "10MM") is reported as unreadable with atoll's unscaled n stored, where
   * the ends-with reading scales it to n megabytes.
   */
  lemma EarlierSuffixLetterAsWritten(n: nat)
    requires |NatToString(n)| + 2 < NPOS
    ensures ReadInt64AsWritten(NatToString(n) + "MM") == Got(false, n)
    ensures ReadInt64(NatToString(n) + "MM") == Got(true, n * MB)
  {
    var u := NatToString(n) + "MM";
    MMReadings(n);
    MMMissedAsWritten(n);
    assert u[|u| - 1..] == "M";
    assert SuffixScale(u) == Some(MB);
  }

  /** "<n>MM" is no plain integer, is upper case already, and atoll reads n. */
  lemma MMReadings(n: nat)
    ensures ParseInt64(NatToString(n) + "MM") == None
    ensures ToUpper(NatToString(n) + "MM") == NatToString(n) + "MM"
    ensures Atoll(NatToString(n) + "MM") == n
  {
    NumberThenLetters(n, "MM");
    assert ToUpper("MM") == "MM" by { assert ToUpper("MM")[0] == Upper('M') && ToUpper("MM")[1] == Upper('M'); }
  }

  /** The find-based test matches none of the six suffixes on "<n>MM". */
  lemma MMMissedAsWritten(n: nat)
    requires |NatToString(n)| + 2 < NPOS
    ensures !FoundAtEnd(NatToString(n) + "MM", "M") && !FoundAtEnd(NatToString(n) + "MM", "MB")
    ensures !FoundAtEnd(NatToString(n) + "MM", "G") && !FoundAtEnd(NatToString(n) + "MM", "GB")
    ensures !FoundAtEnd(NatToString(n) + "MM", "K") && !FoundAtEnd(NatToString(n) + "MM", "KB")
  {
    var d := NatToString(n);
    FindInMM();
    FoundAtEndAfterDigits(d, "MM", "M");
    FoundAtEndAfterDigits(d, "MM", "MB");
    FoundAtEndAfterDigits(d, "MM", "G");
    FoundAtEndAfterDigits(d, "MM", "GB");
    FoundAtEndAfterDigits(d, "MM", "K");
    FoundAtEndAfterDigits(d, "MM", "KB");
  }

  /** Where the size suffixes are found in "MM". */
  lemma FindInMM()
    ensures FindPos("MM", "M") == 0
    ensures FindPos("MM", "MB") == FindPos("MM", "G") == FindPos("MM", "GB") == NPOS
    ensures FindPos("MM", "K") == FindPos("MM", "KB") == NPOS
  {
    assert OccursAt("MM", "M", 0);
    assert Find("MM", "MB", 0) == None by {
      assert "MM"[0..2][1] != "MB"[1];
      assert Find("MM", "MB", 1) == None;
    }
    NotInMM("G");
    NotInMM("GB");
    NotInMM("K");
    NotInMM("KB");
  }

  lemma NotInMM(pat: string)
    requires |pat| >= 1 && pat[0] != 'M'
    ensures Find("MM", pat, 0) == None
  {
    forall j | 0 <= j ensures !OccursAt("MM", pat, j) {
      if j + |pat| <= 2 {
        assert "MM"[j..j + |pat|][0] == "MM"[j] == 'M';
      }
    }
  }

  lemma OneCharReadings()
    ensures ToUpper("x") == "X" && ParseInt64("x") == None && Atoll("X") == 0
    ensures FindPos("X", "MB") == NPOS && SizeMinus("X", 2) == NPOS
    ensures SuffixScale("X") == None
  {
    UpperX();
    XIsNotInt64();
    AtollX();
    NoMBInX();
    SizeMinusWraps();
    NoSuffixInX();
  }
  lemma SizeMinusWraps() ensures SizeMinus("X", 2) == NPOS { }
  lemma NoSuffixInX() ensures SuffixScale("X") == None { }
  lemma UpperX() ensures ToUpper("x") == "X" { assert ToUpper("x")[0] == 'X'; }
  lemma XIsNotInt64() ensures ParseInt64("x") == None { assert !IsDigit("x"[0]); }
  lemma AtollX() ensures Atoll("X") == 0 {
    assert TrimLeft("X", Space) == "X";
    assert DigitPrefix("X") == [];
  }
  lemma NoMBInX() ensures FindPos("X", "MB") == NPOS { assert Find("X", "MB", 0) == None; }

  // ---------------------------------------------------------------------
  // Updates
  // ---------------------------------------------------------------------

  /** conf_set: `replace` drops the earlier occurrences of `name`; either way [value] is added last. */
  function ConfSet(conf: Properties, name: string, value: string, replace: bool): (r: Properties)
    ensures name in r && r[name] == (if replace then [] else Items(conf, name)) + [[value]]
    ensures forall k :: k != name ==> (k in r <==> k in conf)
    ensures forall k :: k != name && k in conf ==> r[k] == conf[k]
  {
    var arrays := if replace then [] else Items(conf, name);
    conf[name := arrays + [[value]]]
  }

  /** The index of the first occurrence whose first value is `value`. */
  function FirstWith(items: ConfItemsArray, value: string): (r: Option<nat>)
    requires forall i :: 0 <= i < |items| ==> |items[i]| > 0
    ensures r.Some? ==> r.value < |items| && items[r.value][0] == value
    ensures r.Some? ==> forall j :: 0 <= j < r.value ==> items[j][0] != value
    ensures r.None? ==> forall j :: 0 <= j < |items| ==> items[j][0] != value
  {
    if items == [] then None
    else if items[0][0] == value then Some(0)
    else match FirstWith(items[1..], value)
      case None => None
      case Some(k) => Some(k + 1)
  }

  /** What conf_del leaves: an absent name gains an empty entry (operator[] inserts it). */
  function Deleted(conf: Properties, name: string, value: string): Properties
    requires name in conf ==> forall i :: 0 <= i < |conf[name]| ==> |conf[name][i]| > 0
  {
    if name !in conf then conf[name := []]
    else if conf[name] == [] then conf
    else
      var items := conf[name];
      var rest := match FirstWith(items, value)
        case None => items
        case Some(i) => items[..i] + items[i + 1..];
      if rest == [] then conf - {name} else conf[name := rest]
  }

  /** conf_del: drop the first occurrence of `name` whose first value is `value`. */
  method ConfDel(conf: Properties, name: string, value: string) returns (r: Properties)
    requires name in conf ==> forall i :: 0 <= i < |conf[name]| ==> |conf[name][i]| > 0
    ensures r == Deleted(conf, name, value)
  {
    var arrays := if name in conf then conf[name] else [];
    r := conf[name := arrays];
    if arrays != [] {
      var i := 0;
      while i < |arrays| && arrays[i][0] != value
        invariant 0 <= i <= |arrays|
        invariant forall j :: 0 <= j < i ==> arrays[j][0] != value
      {
        i := i + 1;
      }
      if i < |arrays| {
        assert FirstWith(arrays, value) == Some(i);
        arrays := arrays[..i] + arrays[i + 1..];
      }
      if arrays == [] {
        r := conf - {name};
      } else {
        r := conf[name := arrays];
      }
    }
  }

  /** Replacing a name's occurrences with one value and then deleting that value removes the name. */
  lemma SetReplaceThenDelete(conf: Properties, name: string, value: string)
    ensures Deleted(ConfSet(conf, name, value, true), name, value) == conf - {name}
  {
    var c := ConfSet(conf, name, value, true);
    assert c[name] == [[value]];
    assert FirstWith(c[name], value) == Some(0);
  }

  /** Deleting a value the name does not carry leaves its occurrences as they were. */
  lemma DeleteAbsentValue(conf: Properties, name: string, value: string)
    requires name in conf && conf[name] != []
    requires forall i :: 0 <= i < |conf[name]| ==> |conf[name][i]| > 0 && conf[name][i][0] != value
    ensures Deleted(conf, name, value) == conf
  {
    assert FirstWith(conf[name], value) == None;
  }

  // ---------------------------------------------------------------------
  // ${VAR} substitution
  // ---------------------------------------------------------------------

  /**
   * One round of the substitution loop: the leftmost "${" with a closing '}'
   * after it and a defined key is replaced by the key's value; anything else
   * ends the loop (None).
   */
  function SubstOnce(s: string, env: map<string, string>): Option<string> {
    match Find(s, "${", 0)
    case None => None
    case Some(pos) =>
      assert s[pos..pos + 2] == "${";
      assert s[pos + 1] == '{';
      match Find(s, "}", pos + 1)
      case None => None
      case Some(next) =>
        assert s[next..next + 1] == "}";
        var key := s[pos + 2..next];
        if key in env then Some(s[..pos] + env[key] + s[next + 1..]) else None
  }

  /**
   * The substitution loop with at most `fuel` rounds: the rewritten text and
   * whether the loop ended on its own.  (The source loops for ever when a
   * value keeps re-creating a defined "${KEY}".)
   */
  function Expand(s: string, env: map<string, string>, fuel: nat): (string, bool)
    decreases fuel
  {
    match SubstOnce(s, env)
    case None => (s, true)
    case Some(t) => if fuel == 0 then (s, false) else Expand(t, env, fuel - 1)
  }

  /** The in-place loop of replace_env_var on one value. */
  method ExpandValue(s: string, env: map<string, string>, fuel: nat) returns (r: string, settled: bool)
    ensures (r, settled) == Expand(s, env, fuel)
    ensures settled ==> SubstOnce(r, env).None?
  {
    r := s;
    var budget := fuel;
    var next := SubstOnce(r, env);
    while next.Some? && budget > 0
      invariant next == SubstOnce(r, env)
      invariant Expand(s, env, fuel) == Expand(r, env, budget)
      decreases budget
    {
      r := next.value;
      budget := budget - 1;
      next := SubstOnce(r, env);
    }
    settled := next.None?;
  }

  /** When the loop ends on its own, nothing substitutable is left. */
  lemma {:induction false} ExpandSettles(s: string, env: map<string, string>, fuel: nat)
    ensures Expand(s, env, fuel).1 ==> SubstOnce(Expand(s, env, fuel).0, env).None?
    decreases fuel
  {
    match SubstOnce(s, env)
    case None =>
    case Some(t) =>
      if fuel > 0 {
        ExpandSettles(t, env, fuel - 1);
      }
  }

  /** The leftmost "${KEY}" with KEY defined is the one replaced. */
  lemma SubstLeftmost(a: string, key: string, b: string, env: map<string, string>)
    requires !Contains(a, "${") && '}' !in key && key in env
    ensures SubstOnce(a + "${" + key + "}" + b, env) == Some(a + env[key] + b)
  {
    var s := a + "${" + key + "}" + b;
    var p := |a|;
    var q := p + 2 + |key|;
    assert s[..p] == a;
    assert s[p] == '$' && s[p + 1] == '{' && s[q] == '}';
    assert s[p + 2..q] == key;
    assert s[q + 1..] == b;
    OpenAfterPlain(s, a);
    CloseAfterKey(s, p, key);
  }

  /** The first "${" of a text that has none in its head `a` is the one right after it. */
  lemma OpenAfterPlain(s: string, a: string)
    requires |a| + 2 <= |s| && s[..|a|] == a && s[|a|] == '$' && s[|a| + 1] == '{'
    requires !Contains(a, "${")
    ensures Find(s, "${", 0) == Some(|a|)
  {
    var p := |a|;
    assert s[p..p + 2] == "${";
    forall j | 0 <= j < p ensures !OccursAt(s, "${", j) {
      if j + 2 <= |a| {
        assert s[j..j + 2] == a[j..j + 2];
        assert !OccursAt(a, "${", j);
      } else {
        assert s[j + 1] == '$';
      }
    }
    FindIs(s, "${", 0, p);
  }

  /** Searching from the brace at p + 1, the first "}" is the one closing the key. */
  lemma CloseAfterKey(s: string, p: nat, key: string)
    requires p + 2 + |key| < |s| && s[p + 1] == '{' && s[p + 2..p + 2 + |key|] == key
    requires s[p + 2 + |key|] == '}' && '}' !in key
    ensures Find(s, "}", p + 1) == Some(p + 2 + |key|)
  {
    var q := p + 2 + |key|;
    assert s[q..q + 1] == "}";
    forall j | p + 1 <= j < q ensures !OccursAt(s, "}", j) {
      if j == p + 1 {
        assert s[j..j + 1][0] == '{';
      } else {
        assert s[j] == s[p + 2..q][j - p - 2];
        assert s[j..j + 1][0] == key[j - p - 2];
      }
    }
    FindIs(s, "}", p + 1, q);
  }

  /** replace_env_var(Properties&): every value of every occurrence is rewritten on its own. */
  function ReplaceEnvVar(props: Properties, env: map<string, string>, fuel: nat): (r: Properties)
    ensures r.Keys == props.Keys
    ensures forall k :: k in props ==> |r[k]| == |props[k]|
    ensures forall k, i :: k in props && 0 <= i < |props[k]| ==> |r[k][i]| == |props[k][i]|
  {
    map k | k in props ::
      seq(|props[k]|, i requires 0 <= i < |props[k]| =>
        seq(|props[k][i]|, j requires 0 <= j < |props[k][i]| => Expand(props[k][i][j], env, fuel).0))
  }

  /** replace_env_var(INIProperties&): each section in turn. */
  function ReplaceEnvVarIni(props: IniProperties, env: map<string, string>, fuel: nat): (r: IniProperties)
    ensures r.Keys == props.Keys
  {
    map tag | tag in props :: ReplaceEnvVar(props[tag], env, fuel)
  }

  // ---------------------------------------------------------------------
  // Line-oriented files
  // ---------------------------------------------------------------------

  datatype Line = Skip | Bad | Entry(key: string, values: ConfItems) | Section(tag: string)

  function TrimAll(xs: seq<string>): (r: seq<string>)
    ensures |r| == |xs| && forall i :: 0 <= i < |xs| ==> r[i] == Trim(xs[i])
  {
    seq(|xs|, i requires 0 <= i < |xs| => Trim(xs[i]))
  }

  /** How parse_conf_file reads one line: comments and blank lines are skipped; a key needs a value. */
  function ConfLine(line: string, sep: char): (r: Line)
    ensures r.Entry? ==> |r.values| >= 1
    ensures r != Bad <==> (Trim(line) == [] || Trim(line)[0] == '#' || |Tokens(Trim(line), sep)| >= 2)
  {
    var t := Trim(line);
    if t == [] || t[0] == '#' then Skip
    else
      var toks := Tokens(t, sep);
      if |toks| < 2 then Bad else Entry(Trim(toks[0]), TrimAll(toks[1..]))
  }

  function Append(conf: Properties, key: string, values: ConfItems): Properties {
    conf[key := Items(conf, key) + [values]]
  }

  function Classify(lines: seq<string>, sep: char): (r: seq<Line>)
    ensures |r| == |lines| && forall i :: 0 <= i < |lines| ==> r[i] == ConfLine(lines[i], sep)
  {
    seq(|lines|, i requires 0 <= i < |lines| => ConfLine(lines[i], sep))
  }

  /** The outcome of filing classified lines into `result`: false at the first malformed one. */
  function Fold(ls: seq<Line>, result: Properties): (bool, Properties) {
    if ls == [] then (true, result)
    else if ls[0].Entry? then Fold(ls[1..], Append(result, ls[0].key, ls[0].values))
    else if ls[0].Bad? then (false, result)
    else Fold(ls[1..], result)
  }

  /** parse_conf_file; `file` is None when it cannot be opened. */
  method ParseConfFile(file: Option<seq<string>>, sep: char, result: Properties) returns (ok: bool, r: Properties)
    ensures file.None? ==> !ok && r == result
    ensures file.Some? ==> (ok, r) == Fold(Classify(file.value, sep), result)
  {
    r := result;
    if file.None? {
      return false, r;
    }
    var lines := file.value;
    ghost var ls := Classify(lines, sep);
    var i := 0;
    while i < |lines|
      invariant 0 <= i <= |lines|
      invariant Fold(ls, result) == Fold(ls[i..], r)
    {
      assert ls[i..][1..] == ls[i + 1..];
      var l := ConfLine(lines[i], sep);
      if l.Bad? {
        return false, r;
      }
      if l.Entry? {
        r := r[l.key := Items(r, l.key) + [l.values]];
      }
      i := i + 1;
    }
    ok := true;
  }

  /** The values of the occurrences of `key` among classified lines, in file order. */
  function EntriesFor(ls: seq<Line>, key: string): ConfItemsArray {
    if ls == [] then []
    else if ls[0].Entry? && ls[0].key == key then [ls[0].values] + EntriesFor(ls[1..], key)
    else EntriesFor(ls[1..], key)
  }

  /** Reading fails exactly when some line is malformed, and then nothing after it is filed. */
  lemma {:induction false} FoldOk(ls: seq<Line>, result: Properties)
    ensures Fold(ls, result).0 <==> forall i :: 0 <= i < |ls| ==> !ls[i].Bad?
  {
    if ls != [] {
      assert forall i :: 1 <= i < |ls| ==> ls[i] == ls[1..][i - 1];
      if ls[0].Entry? {
        FoldOk(ls[1..], Append(result, ls[0].key, ls[0].values));
      } else if !ls[0].Bad? {
        FoldOk(ls[1..], result);
      }
    }
  }

  /** A file read without error appends each key's occurrences after what was there, in order. */
  lemma {:induction false} FoldAppends(ls: seq<Line>, result: Properties, key: string)
    requires Fold(ls, result).0
    ensures Items(Fold(ls, result).1, key) == Items(result, key) + EntriesFor(ls, key)
  {
    if ls != [] {
      if ls[0].Entry? {
        FoldAppends(ls[1..], Append(result, ls[0].key, ls[0].values), key);
      } else {
        FoldAppends(ls[1..], result, key);
      }
    }
  }

  /** Keys that no line mentions keep their occurrences, whatever the outcome. */
  lemma {:induction false} FoldKeepsOthers(ls: seq<Line>, result: Properties, key: string)
    requires forall i :: 0 <= i < |ls| ==> !(ls[i].Entry? && ls[i].key == key)
    ensures Items(Fold(ls, result).1, key) == Items(result, key)
    ensures key in Fold(ls, result).1 <==> key in result
  {
    if ls != [] {
      assert forall i :: 0 <= i < |ls[1..]| ==> ls[1..][i] == ls[i + 1];
      if ls[0].Entry? {
        FoldKeepsOthers(ls[1..], Append(result, ls[0].key, ls[0].values), key);
      } else if !ls[0].Bad? {
        FoldKeepsOthers(ls[1..], result, key);
      }
    }
  }

  /** How parse_ini_conf_file reads one line: "[tag]" switches the current section. */
  function IniLine(line: string, sep: char): (r: Line)
    ensures r.Section? <==> (|Trim(line)| > 0 && Trim(line)[0] == '[' && Trim(line)[|Trim(line)| - 1] == ']')
    ensures !r.Section? ==> r == ConfLine(line, sep)
  {
    var t := Trim(line);
    if t == [] || t[0] == '#' then Skip
    else if t[0] == '[' && t[|t| - 1] == ']' then
      Section(if |t| >= 2 then t[1..|t| - 1] else [])
    else ConfLine(line, sep)
  }

  function IniClassify(lines: seq<string>, sep: char): (r: seq<Line>)
    ensures |r| == |lines| && forall i :: 0 <= i < |lines| ==> r[i] == IniLine(lines[i], sep)
  {
    seq(|lines|, i requires 0 <= i < |lines| => IniLine(lines[i], sep))
  }

  function SectionOf(result: IniProperties, tag: string): Properties {
    if tag in result then result[tag] else map[]
  }

  /**
   * The outcome of filing classified lines under the current section `tag`.
   * The section's entry is created before the line is judged, so a malformed
   * line still leaves it in place.
   */
  function IniFold(ls: seq<Line>, tag: string, result: IniProperties): (bool, IniProperties) {
    if ls == [] then (true, result)
    else if ls[0].Section? then IniFold(ls[1..], ls[0].tag, result)
    else if ls[0].Skip? then IniFold(ls[1..], tag, result)
    else if ls[0].Bad? then (false, result[tag := SectionOf(result, tag)])
    else IniFold(ls[1..], tag, result[tag := Append(SectionOf(result, tag), ls[0].key, ls[0].values)])
  }

  /** parse_ini_conf_file; `file` is None when it cannot be opened. */
  method ParseIniConfFile(file: Option<seq<string>>, sep: char, result: IniProperties) returns (ok: bool, r: IniProperties)
    ensures file.None? ==> !ok && r == result
    ensures file.Some? ==> (ok, r) == IniFold(IniClassify(file.value, sep), "", result)
  {
    r := result;
    if file.None? {
      return false, r;
    }
    var lines := file.value;
    ghost var ls := IniClassify(lines, sep);
    var tag := "";
    var i := 0;
    while i < |lines|
      invariant 0 <= i <= |lines|
      invariant IniFold(ls, "", result) == IniFold(ls[i..], tag, r)
    {
      assert ls[i..][1..] == ls[i + 1..];
      var l := IniLine(lines[i], sep);
      if l.Section? {
        tag := l.tag;
      } else if l.Skip? {
      } else {
        var current := SectionOf(r, tag);
        if l.Bad? {
          return false, r[tag := current];
        }
        r := r[tag := Append(current, l.key, l.values)];
      }
      i := i + 1;
    }
    ok := true;
  }

  /**
   * Between two section headers, the ini reader files lines exactly as the
   * plain reader would, into the current section, and leaves the other
   * sections alone.
   */
  lemma {:induction false} IniSectionIsConfParse(ls: seq<Line>, tag: string, result: IniProperties)
    requires forall i :: 0 <= i < |ls| ==> !ls[i].Section?
    ensures IniFold(ls, tag, result).0 == Fold(ls, SectionOf(result, tag)).0
    ensures SectionOf(IniFold(ls, tag, result).1, tag) == Fold(ls, SectionOf(result, tag)).1
    ensures forall t :: t != tag ==> SectionOf(IniFold(ls, tag, result).1, t) == SectionOf(result, t)
  {
    if ls != [] {
      assert !ls[0].Section?;
      assert forall i :: 0 <= i < |ls[1..]| ==> ls[1..][i] == ls[i + 1];
      if ls[0].Entry? {
        IniSectionIsConfParse(ls[1..], tag, result[tag := Append(SectionOf(result, tag), ls[0].key, ls[0].values)]);
      } else if ls[0].Skip? {
        IniSectionIsConfParse(ls[1..], tag, result);
      }
    }
  }

  /** A run of lines without a section header classifies the same way for both readers. */
  lemma IniClassifyWithoutSections(lines: seq<string>, sep: char)
    requires forall i :: 0 <= i < |lines| ==> !IniLine(lines[i], sep).Section?
    ensures IniClassify(lines, sep) == Classify(lines, sep)
  {
  }
}
