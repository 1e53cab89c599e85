/** The archive browser of SchedulerService: GetAvailableDates lists the
    dates (or months, years, ISO weeks) that "logs_*.json" files carry in
    their names, and GetFilesForDate lists the files of one such key by a
    file-name search pattern. The directory is given as whether it exists
    and the names of the files directly inside it, in listing order. */
module ArchiveIndex {
  import opened Base
  import opened Text
  import opened Calendar
  import opened Grouping

  // File-name search patterns.

  /** A pattern character that matches only itself. */
  predicate IsPlain(p: string)
  {
    forall i :: 0 <= i < |p| ==> p[i] != '*' && p[i] != '?'
  }

  /** A search pattern of Directory.GetFiles: "*" matches any run of
      characters, "?" any one character, every other character itself,
      with case. */
  predicate Glob(p: string, n: string)
    decreases |p| + |n|
  {
    if p == [] then n == []
    else if p[0] == '*' then Glob(p[1..], n) || (n != [] && Glob(p, n[1..]))
    else n != [] && (p[0] == '?' || p[0] == n[0]) && Glob(p[1..], n[1..])
  }

  /** A plain head of a pattern matches exactly that head of the name. */
  lemma {:induction false} GlobPlainHead(head: string, tail: string, n: string)
    requires IsPlain(head)
    ensures Glob(head + tail, n) <==> head <= n && Glob(tail, n[|head|..])
  {
    if head != [] {
      var p := head + tail;
      assert p[0] == head[0] && p[1..] == head[1..] + tail;
      GlobPlainHead(head[1..], tail, if n == [] then n else n[1..]);
      if n != [] && |head| <= |n| {
        assert n[1..][|head| - 1..] == n[|head|..];
        assert head <= n <==> head[0] == n[0] && head[1..] <= n[1..];
      }
    } else {
      assert head + tail == tail;
    }
  }

  /** "*" followed by a plain suffix matches exactly the names ending in it. */
  lemma {:induction false} GlobStarSuffix(suffix: string, n: string)
    requires IsPlain(suffix)
    ensures Glob("*" + suffix, n) <==> EndsWith(n, suffix)
    decreases |n|
  {
    var p := "*" + suffix;
    assert p[1..] == suffix;
    GlobPlainHead(suffix, "", n);
    assert suffix + "" == suffix;
    assert Glob(suffix, n) <==> n == suffix by {
      if suffix <= n && n[|suffix|..] == [] {
        assert n == n[..|suffix|];
      }
    }
    if n != [] {
      GlobStarSuffix(suffix, n[1..]);
      if |suffix| <= |n| - 1 {
        assert n[1..][|n| - 1 - |suffix|..] == n[|n| - |suffix|..];
      }
    }
  }

  /** A plain prefix, then "*", then a plain suffix: the names that start
      with the prefix, end with the suffix and are long enough to hold both. */
  lemma PrefixStarSuffix(prefix: string, suffix: string, n: string)
    requires IsPlain(prefix) && IsPlain(suffix)
    ensures Glob(prefix + "*" + suffix, n)
      <==> StartsWith(n, prefix) && EndsWith(n, suffix) && |n| >= |prefix| + |suffix|
  {
    assert prefix + "*" + suffix == prefix + ("*" + suffix);
    GlobPlainHead(prefix, "*" + suffix, n);
    if prefix <= n {
      GlobStarSuffix(suffix, n[|prefix|..]);
      EndsWithTail(n, |prefix|, suffix);
    }
  }

  lemma EndsWithTail(n: string, k: nat, suffix: string)
    requires k <= |n|
    ensures EndsWith(n[k..], suffix) <==> EndsWith(n, suffix) && |n| >= k + |suffix|
  {
    if |suffix| <= |n| - k {
      assert n[k..][|n| - k - |suffix|..] == n[|n| - |suffix|..];
    }
  }

  // GetAvailableDates.

  const LogsPattern: string := "logs_*.json"

  /** Directory.GetFiles(backupDir, "logs_*.json") */
  predicate IsLogsFile(name: string) { Glob(LogsPattern, name) }

  lemma LogsFileShape(name: string)
    ensures IsLogsFile(name) <==> StartsWith(name, "logs_") && EndsWith(name, ".json") && |name| >= 10
  {
    assert LogsPattern == "logs_" + "*" + ".json";
    PrefixStarSuffix("logs_", ".json", name);
  }

  /** The regular expression logs_(\d{4}-\d{2}-\d{2}) matches at position i. */
  predicate MatchesAt(name: string, i: nat)
  {
    i + 15 <= |name| && name[i..i + 5] == "logs_" && IsDateShape(name[i + 5..i + 15])
  }

  /** Regex.Match: the leftmost position, from i on, where the expression matches. */
  function FirstMatch(name: string, i: nat): (r: Option<nat>)
    ensures r.Some? ==> i <= r.value && MatchesAt(name, r.value)
    ensures forall j :: i <= j && (r.None? || j < r.value) ==> !MatchesAt(name, j)
    decreases |name| - i
  {
    if i + 15 > |name| then None
    else if MatchesAt(name, i) then Some(i)
    else FirstMatch(name, i + 1)
  }

  /** The date a file name carries: the captured group of the leftmost
      match, if DateTime.TryParse accepts it. */
  function DateMatch(name: string): (r: Option<DateTime>)
    ensures r.Some? ==> IsValid(r.value)
  {
    match FirstMatch(name, 0)
    case None => None
    case Some(i) => ParseDate(name[i + 5..i + 15])
  }

  /** The key of a date under a grouping: "yyyy-MM" by month, "yyyy" by
      year, ISOWeek year + "/W" + ISO week by week, and "yyyy-MM-dd" for any
      other grouping. */
  function KeyOf(d: DateTime, groupBy: string): string
    requires IsValid(d)
  {
    if groupBy == "month" then FormatMonth(d)
    else if groupBy == "year" then FormatYear(d)
    else if groupBy == "week" then
      IntToString(IsoWeekYear(d.year, d.month, d.day)) + "/W" + IntToString(IsoWeekOfYear(d.year, d.month, d.day))
    else FormatDate(d)
  }

  /** The key a file name is listed under, if any. */
  function FileKey(name: string, groupBy: string): Option<string>
  {
    match DateMatch(name)
    case None => None
    case Some(d) => Some(KeyOf(d, groupBy))
  }

  /** The dates found in the file names, in listing order. */
  function Dates(files: seq<string>): (ds: seq<DateTime>)
    ensures forall k :: 0 <= k < |ds| ==> IsValid(ds[k])
  {
    if files == [] then []
    else
      var found := DateMatch(files[|files| - 1]);
      Dates(files[..|files| - 1]) + (if found.Some? then [found.value] else [])
  }

  function Keys(ds: seq<DateTime>, groupBy: string): (keys: seq<string>)
    requires forall k :: 0 <= k < |ds| ==> IsValid(ds[k])
    ensures |keys| == |ds|
  {
    seq(|ds|, k requires 0 <= k < |ds| => KeyOf(ds[k], groupBy))
  }

  /** What GetAvailableDates returns. */
  function AvailableDates(dirExists: bool, names: seq<string>, groupBy: string): seq<string>
  {
    if !dirExists then [] else Distinct(Keys(Dates(Where(names, IsLogsFile)), groupBy))
  }

  /** GetAvailableDates: collect the dates of the listed files, then their
      distinct keys in order of first appearance. */
  method GetAvailableDates(dirExists: bool, names: seq<string>, groupBy: string) returns (keys: seq<string>)
    ensures keys == AvailableDates(dirExists, names, groupBy)
  {
    if !dirExists {
      return [];
    }
    var files := Where(names, IsLogsFile);
    var dateMatches: seq<DateTime> := [];
    for i := 0 to |files|
      invariant dateMatches == Dates(files[..i])
    {
      assert files[..i + 1][..i] == files[..i];
      var dt := DateMatch(files[i]);
      if dt.Some? {
        dateMatches := dateMatches + [dt.value];
      }
    }
    assert files[..|files|] == files;
    keys := Distinct(Keys(dateMatches, groupBy));
  }

  /** Every file with a date contributes it, and every date comes from a file. */
  lemma {:induction false} DatesFound(files: seq<string>)
    ensures forall i :: 0 <= i < |files| && DateMatch(files[i]).Some? ==> DateMatch(files[i]).value in Dates(files)
    ensures forall k :: 0 <= k < |Dates(files)| ==> exists i :: 0 <= i < |files| && DateMatch(files[i]) == Some(Dates(files)[k])
  {
    if files != [] {
      var init := files[..|files| - 1];
      DatesFound(init);
      var ds := Dates(files);
      assert Dates(init) <= ds;
      forall k | 0 <= k < |Dates(files)|
        ensures exists i :: 0 <= i < |files| && DateMatch(files[i]) == Some(Dates(files)[k])
      {
        if k < |Dates(init)| {
          var i :| 0 <= i < |init| && DateMatch(init[i]) == Some(Dates(init)[k]);
          assert files[i] == init[i] && ds[k] == Dates(init)[k];
        } else {
          assert DateMatch(files[|files| - 1]) == Some(ds[k]);
          assert 0 <= |files| - 1 < |files|;
        }
      }
      forall i | 0 <= i < |files| && DateMatch(files[i]).Some?
        ensures DateMatch(files[i]).value in ds
      {
        if i < |init| {
          assert files[i] == init[i];
          var v := DateMatch(files[i]).value;
          var j :| 0 <= j < |Dates(init)| && Dates(init)[j] == v;
          assert ds[j] == v;
        } else {
          assert ds == Dates(init) + [DateMatch(files[i]).value];
          assert ds[|ds| - 1] == DateMatch(files[i]).value;
        }
      }
    } else {
      assert Dates(files) == [];
    }
  }

  /** Each distinct key of some files' dates is the key of one of those files. */
  lemma KeysComeFromFiles(files: seq<string>, groupBy: string)
    ensures var r := Distinct(Keys(Dates(files), groupBy));
      forall k :: 0 <= k < |r| ==> exists f :: 0 <= f < |files| && FileKey(files[f], groupBy) == Some(r[k])
  {
    var ds := Dates(files);
    var keys := Keys(ds, groupBy);
    var r := Distinct(keys);
    DatesFound(files);
    forall k | 0 <= k < |r|
      ensures exists f :: 0 <= f < |files| && FileKey(files[f], groupBy) == Some(r[k])
    {
      assert r[k] in keys;
      var m :| 0 <= m < |keys| && keys[m] == r[k];
      var f :| 0 <= f < |files| && DateMatch(files[f]) == Some(ds[m]);
      assert FileKey(files[f], groupBy) == Some(r[k]);
    }
  }

  /** The key of every file with a date is among the distinct keys. */
  lemma FilesGiveKeys(files: seq<string>, groupBy: string)
    ensures var r := Distinct(Keys(Dates(files), groupBy));
      forall f :: 0 <= f < |files| && FileKey(files[f], groupBy).Some? ==> FileKey(files[f], groupBy).value in r
  {
    var ds := Dates(files);
    var keys := Keys(ds, groupBy);
    var r := Distinct(keys);
    DatesFound(files);
    forall f | 0 <= f < |files| && FileKey(files[f], groupBy).Some?
      ensures FileKey(files[f], groupBy).value in r
    {
      var d := DateMatch(files[f]).value;
      assert d in ds;
      var m :| 0 <= m < |ds| && ds[m] == d;
      assert keys[m] == KeyOf(d, groupBy);
    }
  }

  /** The keys are distinct; each is the key of a "logs_*.json" file, and
      each such file whose name carries a date has its key in the list; a
      missing directory gives no keys. */
  lemma AvailableDatesListFileKeys(dirExists: bool, names: seq<string>, groupBy: string)
    ensures NoDuplicates(AvailableDates(dirExists, names, groupBy))
    ensures !dirExists ==> AvailableDates(dirExists, names, groupBy) == []
    ensures forall k :: 0 <= k < |AvailableDates(dirExists, names, groupBy)| ==>
      exists i :: 0 <= i < |names| && IsLogsFile(names[i]) && FileKey(names[i], groupBy) == Some(AvailableDates(dirExists, names, groupBy)[k])
    ensures dirExists ==> forall i :: 0 <= i < |names| && IsLogsFile(names[i]) && FileKey(names[i], groupBy).Some? ==>
      FileKey(names[i], groupBy).value in AvailableDates(dirExists, names, groupBy)
  {
    if dirExists {
      var files := Where(names, IsLogsFile);
      var r := AvailableDates(dirExists, names, groupBy);
      assert r == Distinct(Keys(Dates(files), groupBy));
      KeysComeFromFiles(files, groupBy);
      FilesGiveKeys(files, groupBy);
      forall k | 0 <= k < |r|
        ensures exists i :: 0 <= i < |names| && IsLogsFile(names[i]) && FileKey(names[i], groupBy) == Some(r[k])
      {
        var f :| 0 <= f < |files| && FileKey(files[f], groupBy) == Some(r[k]);
        assert files[f] in names;
        var i :| 0 <= i < |names| && names[i] == files[f];
      }
      forall i | 0 <= i < |names| && IsLogsFile(names[i]) && FileKey(names[i], groupBy).Some?
        ensures FileKey(names[i], groupBy).value in r
      {
        assert names[i] in files;
        var f :| 0 <= f < |files| && files[f] == names[i];
      }
    }
  }

  /** Grouped by day, every key is a "yyyy-MM-dd" text naming a real date. */
  lemma DayKeysAreDates(dirExists: bool, names: seq<string>, groupBy: string, k: nat)
    requires groupBy != "month" && groupBy != "year" && groupBy != "week"
    requires k < |AvailableDates(dirExists, names, groupBy)|
    ensures var key := AvailableDates(dirExists, names, groupBy)[k];
      IsDateShape(key) && ParseDate(key).Some? && FormatDate(ParseDate(key).value) == key
  {
    AvailableDatesListFileKeys(dirExists, names, groupBy);
    var key := AvailableDates(dirExists, names, groupBy)[k];
    var i :| 0 <= i < |names| && IsLogsFile(names[i]) && FileKey(names[i], groupBy) == Some(key);
    var d := DateMatch(names[i]).value;
    ParseFormatDate(d);
    assert key == FormatDate(d);
    FormatParsedDate(key);
  }

  // GetFilesForDate.

  /** Everything before the last "/" of a pattern. */
  function DirectoryPart(pattern: string): string
    requires '/' in pattern
  {
    if pattern[|pattern| - 1] == '/' then pattern[..|pattern| - 1]
    else DirectoryPart(pattern[..|pattern| - 1])
  }

  lemma {:induction false} DirectoryPartOf(dir: string, rest: string)
    requires '/' !in rest
    ensures '/' in dir + "/" + rest && DirectoryPart(dir + "/" + rest) == dir
  {
    var p := dir + "/" + rest;
    assert p[|dir|] == '/';
    if rest != [] {
      var shorter := rest[..|rest| - 1];
      assert p[..|p| - 1] == dir + "/" + shorter;
      DirectoryPartOf(dir, shorter);
    } else {
      assert p[..|p| - 1] == dir;
    }
  }

  /** GetFilesForDate: the files matching "logs_{datePrefix}*.json". A "/"
      in the pattern makes the search look in a subdirectory of that name.
      The modelled listing is one flat directory of file names and cannot
      hold a subdirectory, so the model always takes that search to throw
      DirectoryNotFoundException; the backups the service writes are flat,
      so no such subdirectory is created by the service itself. */
  function GetFilesForDate(dirExists: bool, names: seq<string>, datePrefix: string): Result<seq<string>>
  {
    var pattern := "logs_" + datePrefix + "*.json";
    if !dirExists then Ok([])
    else if '/' in pattern then Err(DirectoryNotFound(DirectoryPart(pattern)))
    else Ok(Where(names, n => Glob(pattern, n)))
  }

  /** For a prefix without wildcards or "/", the files found are exactly the
      names that start with "logs_" and the prefix and end with ".json", in
      listing order; a prefix with "/" throws. */
  lemma FilesForDateByPrefix(names: seq<string>, datePrefix: string)
    ensures '/' in datePrefix ==> GetFilesForDate(true, names, datePrefix).Err?
    ensures '/' !in datePrefix && IsPlain(datePrefix) ==>
      var r := GetFilesForDate(true, names, datePrefix);
      var head := "logs_" + datePrefix;
      && r.Ok?
      && (forall i :: 0 <= i < |r.value| ==> r.value[i] in names && StartsWith(r.value[i], head) && EndsWith(r.value[i], ".json") && |r.value[i]| >= |head| + 5)
      && (forall i :: 0 <= i < |names| && StartsWith(names[i], head) && EndsWith(names[i], ".json") && |names[i]| >= |head| + 5 ==> names[i] in r.value)
  {
    var head := "logs_" + datePrefix;
    var pattern := head + "*.json";
    assert pattern == "logs_" + datePrefix + "*.json";
    if '/' in datePrefix {
      var j :| 0 <= j < |datePrefix| && datePrefix[j] == '/';
      assert pattern[5 + j] == '/';
    } else if IsPlain(datePrefix) {
      assert '/' !in pattern by {
        forall j | 0 <= j < |pattern| ensures pattern[j] != '/' {
          if 5 <= j < 5 + |datePrefix| { assert pattern[j] == datePrefix[j - 5]; }
        }
      }
      assert IsPlain(head) by {
        forall j | 0 <= j < |head| ensures head[j] != '*' && head[j] != '?' {
          if j >= 5 { assert head[j] == datePrefix[j - 5]; }
        }
      }
      assert pattern == head + "*" + ".json";
      forall n ensures Glob(pattern, n) <==> StartsWith(n, head) && EndsWith(n, ".json") && |n| >= |head| + 5 {
        PrefixStarSuffix(head, ".json", n);
      }
    }
  }

  /** The files of one key as the grouping defines it: the "logs_*.json"
      files whose name carries a date with that key. */
  function FilesForKey(names: seq<string>, groupBy: string, key: string): seq<string>
  {
    Where(names, n => IsLogsFile(n) && FileKey(n, groupBy) == Some(key))
  }

  /** Every key GetAvailableDates offers has files under FilesForKey. */
  lemma AvailableKeysHaveFiles(names: seq<string>, groupBy: string, k: nat)
    requires k < |AvailableDates(true, names, groupBy)|
    ensures |FilesForKey(names, groupBy, AvailableDates(true, names, groupBy)[k])| > 0
  {
    AvailableDatesListFileKeys(true, names, groupBy);
    var key := AvailableDates(true, names, groupBy)[k];
    var i :| 0 <= i < |names| && IsLogsFile(names[i]) && FileKey(names[i], groupBy) == Some(key);
    assert names[i] in FilesForKey(names, groupBy, key);
  }

  /** Grouped by week, every key offered is "year/Wweek", and looking it up
      with GetFilesForDate throws instead of listing that week's files. */
  lemma WeekKeysFailLookup(names: seq<string>, k: nat)
    requires k < |AvailableDates(true, names, "week")|
    ensures GetFilesForDate(true, names, AvailableDates(true, names, "week")[k]).Err?
  {
    AvailableDatesListFileKeys(true, names, "week");
    var key := AvailableDates(true, names, "week")[k];
    var i :| 0 <= i < |names| && IsLogsFile(names[i]) && FileKey(names[i], "week") == Some(key);
    var d := DateMatch(names[i]).value;
    var y := IntToString(IsoWeekYear(d.year, d.month, d.day));
    assert key == y + "/W" + IntToString(IsoWeekOfYear(d.year, d.month, d.day));
    assert key[|y|] == '/';
    FilesForDateByPrefix(names, key);
  }

  const ExampleName: string := "logs_2024-01-02_10-00-00.json"

  lemma ExampleMatch()
    ensures FirstMatch(ExampleName, 0) == Some(0) && ExampleName[5..15] == "2024-01-02"
  {
    var date := "2024-01-02";
    assert ExampleName == "logs_" + date + "_10-00-00.json";
    assert ExampleName[..5] == "logs_" && ExampleName[5..15] == date;
    assert IsDateShape(date);
    assert MatchesAt(ExampleName, 0);
  }

  lemma ExampleParse()
    ensures IsDateShape("2024-01-02") && ParseDate("2024-01-02") == Some(DateTime(2024, 1, 2, 0, 0, 0))
  {
    var date := "2024-01-02";
    assert date[..4] == "2024";
    assert date[5..7] == "01";
    assert date[8..10] == "02";
    ExampleYearValue();
    ExampleDayValues();
  }

  lemma ExampleYearValue()
    ensures DecimalValue("2024") == 2024
  {
    assert "2024"[..3] == "202" && "202"[..2] == "20" && "20"[..1] == "2" && "2"[..0] == "";
    assert DecimalValue("2") == 2 && DecimalValue("20") == 20 && DecimalValue("202") == 202;
  }

  lemma ExampleDayValues()
    ensures DecimalValue("01") == 1 && DecimalValue("02") == 2
  {
    assert "01"[..1] == "0" && "02"[..1] == "0" && "0"[..0] == "";
  }

  lemma ExampleDate()
    ensures DateMatch(ExampleName) == Some(DateTime(2024, 1, 2, 0, 0, 0))
  {
    ExampleMatch();
    ExampleParse();
  }

  lemma ExampleDates()
    ensures Where([ExampleName], IsLogsFile) == [ExampleName]
    ensures Dates([ExampleName]) == [DateTime(2024, 1, 2, 0, 0, 0)]
  {
    LogsFileShape(ExampleName);
    ExampleDate();
    assert [ExampleName][..0] == [];
  }

  /** A single archive file from 2 January 2024 is offered under one week
      key, whose lookup throws, while FilesForKey finds the file. */
  lemma WeekLookupExample()
    ensures |AvailableDates(true, [ExampleName], "week")| == 1
    ensures GetFilesForDate(true, [ExampleName], AvailableDates(true, [ExampleName], "week")[0]).Err?
    ensures FilesForKey([ExampleName], "week", AvailableDates(true, [ExampleName], "week")[0]) == [ExampleName]
  {
    ExampleOneKey();
    WeekKeysFailLookup([ExampleName], 0);
    AvailableKeysHaveFiles([ExampleName], "week", 0);
  }

  lemma ExampleOneKey()
    ensures |AvailableDates(true, [ExampleName], "week")| == 1
  {
    ExampleDates();
    DistinctOfOne(Keys(Dates([ExampleName]), "week"));
  }

  /** The key "2024/W1" (2 January 2024) makes the search look in the
      subdirectory "logs_2024". */
  lemma ExampleWeekLookupThrows()
    ensures GetFilesForDate(true, [ExampleName], "2024/W1") == Err(DirectoryNotFound("logs_2024"))
  {
    var pattern := "logs_" + "2024/W1" + "*.json";
    assert pattern == "logs_2024" + "/" + "W1*.json";
    assert pattern[9] == '/';
    DirectoryPartOf("logs_2024", "W1*.json");
  }
}
