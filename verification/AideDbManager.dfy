/** The directories of scan results on the server: aide.db.current, aide.db.new and the archived aide.db.N. */
module AideDbManager {
  import opened Text
  import opened FileTree
  import opened SysImgGenerator
  import opened VersionFiles

  /** A directory of one scan: its files and what is in COPIED, if that was made. */
  datatype DbDir = DbDir(files: map<string, Disk>, copied: Option<Disk>)

  type Dirs = map<string, DbDir>

  const DB_NAME := "aide.db"
  const CURRENT := "aide.db.current"
  const NEW := "aide.db.new"
  const EMPTY := DbDir(map[], None)

  /** Both the directory aide.db.N and the file in it. */
  function OldName(n: int): string {
    DB_NAME + "." + IntText(n)
  }

  lemma OldNamesApart(m: nat, n: nat)
    ensures OldName(m) == OldName(n) <==> m == n
    ensures OldName(n) != CURRENT && OldName(n) != NEW && OldName(n) != DB_NAME
  {
    NumeralInjective(m, n, 10);
    var text := DB_NAME + "." + Numeral(n, 10);
    assert text[8..] == Numeral(n, 10) && OldName(m)[8..] == Numeral(m, 10);
    assert forall k :: 8 <= k < |text| ==> text[k] == Numeral(n, 10)[k - 8];
    assert CURRENT[9] == 'u' && !IsDigit('u') && NEW[8] == 'n' && !IsDigit('n');
  }

  /******* the consistency check *******/

  /** The number N in the name aide.db.N; the pattern's dots match any character but a line end. */
  function ArchivedNumber(name: string): Option<nat> {
    if |name| > 8 && name[..4] == "aide" && name[4] != '\n' && name[5..7] == "db" && name[7] != '\n'
    then ParseDigits(name[8..], 10)
    else None
  }

  lemma ArchivedNumberOfOldName(n: nat)
    ensures ArchivedNumber(OldName(n)) == Some(n)
  {
    var name := OldName(n);
    assert name[8..] == Numeral(n, 10);
    assert name[..4] == DB_NAME[..4] == "aide" && name[5..7] == DB_NAME[5..] == "db";
    ParseNumeral(n, 10);
  }

  datatype Range = Range(first: nat, last: nat)

  function RangeText(r: Range): string {
    if r.first == r.last then IntText(r.first) else IntText(r.first) + "-" + IntText(r.last)
  }

  predicate NonDecreasing(numbers: seq<nat>) {
    forall i, j :: 0 <= i < j < |numbers| ==> numbers[i] <= numbers[j]
  }

  /** The numbers between two that follow each other in the list. */
  function Gap(a: int, b: nat): (ranges: seq<Range>)
    requires a >= -1
  {
    if a + 1 < b then [Range(a + 1, b - 1)] else []
  }

  function MissingRanges(numbers: seq<nat>): (ranges: seq<Range>) {
    if numbers == [] then []
    else
      var n := |numbers| - 1;
      var before: int := if n == 0 then -1 else numbers[n - 1];
      MissingRanges(numbers[..n]) + Gap(before, numbers[n])
  }

  function Texts(ranges: seq<Range>): (s: seq<string>)
    ensures |s| == |ranges| && forall i :: 0 <= i < |s| ==> s[i] == RangeText(ranges[i])
  {
    seq(|ranges|, i requires 0 <= i < |ranges| => RangeText(ranges[i]))
  }

  method GetMissingAideDbFilesRanges(numbers: seq<nat>) returns (ranges: Option<seq<string>>)
    ensures ranges == if numbers == [] then None else Some(Texts(MissingRanges(numbers)))
  {
    if numbers == [] {
      return None;
    }
    hide IntText, MissingRanges, Texts, RangeText, Gap;
    var texts := FirstGap(numbers[0]);
    MissingFirst(numbers);
    for i := 0 to |numbers| - 1
      invariant texts == Texts(MissingRanges(numbers[..i + 1]))
    {
      MissingStep(numbers, i);
      texts := AddGap(texts, numbers[i], numbers[i + 1], MissingRanges(numbers[..i + 1]));
    }
    assert numbers[..|numbers|] == numbers;
    ranges := Some(texts);
  }

  /** What is missing before the first number. */
  method FirstGap(n: nat) returns (texts: seq<string>)
    ensures texts == Texts(Gap(-1, n))
  {
    hide IntText, RangeText, Texts;
    TextsAppend([], Range(0, 0));
    texts := [];
    if n > 0 {
      TextsAppend([], Range(0, n - 1));
      FirstRangeText(n);
      if n == 1 {
        texts := texts + ["0"];
      } else {
        texts := texts + ["0-" + IntText(n - 1)];
      }
    }
  }

  /** What is missing between two numbers. */
  method AddGap(texts: seq<string>, a: nat, b: nat, ghost done: seq<Range>) returns (more: seq<string>)
    requires texts == Texts(done)
    ensures more == Texts(done + Gap(a, b))
  {
    hide IntText, RangeText, Texts;
    assert done + [] == done;
    more := texts;
    if a + 1 < b {
      TextsAppend(done, Range(a + 1, b - 1));
      GapText(a, b);
      if b - a == 2 {
        more := more + [IntText(a + 1)];
      } else {
        more := more + [IntText(a + 1) + "-" + IntText(b - 1)];
      }
    }
  }

  lemma GapText(a: nat, b: nat)
    requires a + 1 < b
    ensures RangeText(Range(a + 1, b - 1)) ==
              if b - a == 2 then IntText(a + 1) else IntText(a + 1) + "-" + IntText(b - 1)
  {
    hide IntText;
  }

  lemma TextsAppend(ranges: seq<Range>, r: Range)
    ensures Texts(ranges + [r]) == Texts(ranges) + [RangeText(r)] && Texts([]) == []
    ensures Texts([r]) == [RangeText(r)]
  {
    hide RangeText;
  }

  lemma FirstRangeText(n: nat)
    requires n > 0
    ensures RangeText(Range(0, n - 1)) == if n == 1 then "0" else "0-" + IntText(n - 1)
  {
    assert IntText(0) == "0";
    assert "0" + "-" + IntText(n - 1) == "0-" + IntText(n - 1);
  }

  lemma MissingFirst(numbers: seq<nat>)
    requires numbers != []
    ensures MissingRanges(numbers[..1]) == Gap(-1, numbers[0])
  {
    assert numbers[..1][..0] == [] && MissingRanges([]) == [];
  }

  lemma MissingStep(numbers: seq<nat>, i: nat)
    requires i + 1 < |numbers|
    ensures MissingRanges(numbers[..i + 2]) == MissingRanges(numbers[..i + 1]) + Gap(numbers[i], numbers[i + 1])
  {
    assert numbers[..i + 2][..i + 1] == numbers[..i + 1];
    assert numbers[..i + 2][i + 1] == numbers[i + 1] && numbers[..i + 2][i] == numbers[i];
  }

  ghost predicate InRanges(n: nat, ranges: seq<Range>) {
    exists r :: r in ranges && r.first <= n <= r.last
  }

  /** In order, apart, and not to be joined: a number that is not missing lies between any two. */
  ghost predicate InOrderAndMaximal(ranges: seq<Range>) {
    && (forall i :: 0 <= i < |ranges| ==> ranges[i].first <= ranges[i].last)
    && (forall i, j :: 0 <= i < j < |ranges| ==> ranges[i].last + 1 < ranges[j].first)
  }

  /** The ranges are exactly the numbers missing below the last one. */
  lemma {:induction false} MissingRangesExact(numbers: seq<nat>)
    requires NonDecreasing(numbers)
    ensures InOrderAndMaximal(MissingRanges(numbers))
    ensures forall n: nat :: InRanges(n, MissingRanges(numbers)) <==>
                             numbers != [] && n < numbers[|numbers| - 1] && n !in numbers
  {
    hide InOrderAndMaximal, InRanges, Gap;
    if numbers == [] {
      NoRanges();
    } else {
      var n := |numbers| - 1;
      var init, last := numbers[..n], numbers[n];
      MissingRangesExact(init);
      var before: int := if n == 0 then -1 else numbers[n - 1];
      UpToBefore(numbers, before);
      GapCloses(MissingRanges(init), before, last);
    }
  }

  lemma UpToBefore(numbers: seq<nat>, before: int)
    requires numbers != [] && NonDecreasing(numbers)
    requires before == if |numbers| == 1 then -1 else numbers[|numbers| - 2]
    ensures var init, last := numbers[..|numbers| - 1], numbers[|numbers| - 1];
            && before <= last && (init != [] ==> init[|init| - 1] == before && before in init)
              && (init == [] ==> before == -1)
            && (forall k :: k in init ==> k <= before)
            && (forall k: nat :: k in numbers <==> k in init || k == last)
  {
    var init := numbers[..|numbers| - 1];
    assert numbers == init + [numbers[|numbers| - 1]];
    forall k | k in init ensures k <= before {
      var i :| 0 <= i < |init| && init[i] == k;
    }
  }

  lemma GapCloses(ranges: seq<Range>, before: int, last: nat)
    requires InOrderAndMaximal(ranges) && -1 <= before <= last
    requires forall n: nat :: InRanges(n, ranges) ==> n < before
    ensures InOrderAndMaximal(ranges + Gap(before, last))
    ensures forall n: nat :: InRanges(n, ranges + Gap(before, last)) <==> InRanges(n, ranges) || before < n < last
  {
    hide InOrderAndMaximal, InRanges;
    if before + 1 < last {
      AppendRange(ranges, Range(before + 1, last - 1), before);
    } else {
      assert ranges + [] == ranges;
    }
  }

  lemma NoRanges()
    ensures InOrderAndMaximal([]) && forall n: nat :: !InRanges(n, [])
  {
  }

  lemma AppendRange(ranges: seq<Range>, added: Range, before: int)
    requires InOrderAndMaximal(ranges) && added.first <= added.last && added.first == before + 1
    requires forall n: nat :: InRanges(n, ranges) ==> n < before
    ensures InOrderAndMaximal(ranges + [added])
    ensures forall n: nat :: InRanges(n, ranges + [added]) <==> InRanges(n, ranges) || added.first <= n <= added.last
  {
    forall i | 0 <= i < |ranges| ensures ranges[i].last + 1 < added.first {
      assert InRanges(ranges[i].last, ranges);
    }
    forall n: nat ensures InRanges(n, ranges + [added]) <==> InRanges(n, ranges) || added.first <= n <= added.last {
      assert forall r :: r in ranges + [added] <==> r in ranges || r == added;
    }
  }

  /******* renaming *******/

  datatype DbError =
    | CannotRename(from: string, to: string) | Inconsistent | VersionNotWritten(why: VersionError)
    | ScanFailed | CopyFailed | UnknownVersion(version: int)

  /** The directories after some renames, all done or broken off at one that failed. */
  datatype Renaming = Renamed(dirs: Dirs) | Broken(dirs: Dirs, error: DbError)

  /** `os.replace` on a file within a directory. */
  function ReplaceFile(dirs: Dirs, dir: string, a: string, b: string): Renaming {
    if dir in dirs && a in dirs[dir].files
    then Renamed(dirs[dir := dirs[dir].(files := (dirs[dir].files - {a})[b := dirs[dir].files[a]])])
    else Broken(dirs, CannotRename(a, b))
  }

  /** `os.replace` on a directory: the target may only be an empty one. */
  function ReplaceDir(dirs: Dirs, a: string, b: string): Renaming {
    if a in dirs && (a == b || b !in dirs || dirs[b] == EMPTY)
    then Renamed((dirs - {a})[b := dirs[a]])
    else Broken(dirs, CannotRename(a, b))
  }

  /******* the history of scans *******/

  /** What one scan saved; without copies if their directory could not be made. */
  datatype Saved = Saved(database: Disk, copied: Option<Disk>)

  ghost predicate IsArchive(dir: DbDir, name: string, saved: Saved) {
    dir == DbDir(map[name := saved.database], saved.copied)
  }

  /** After k scans the current directory holds scan k-1 and the archived ones are exactly 0 to k-2, each with its
      own database and copies. A directory for new results may be left over from a scan that failed. */
  ghost predicate LayoutOf(dirs: Dirs, history: seq<Saved>) {
    && (forall d :: d in dirs ==>
        d == NEW || (d == CURRENT && history != []) || exists i: nat :: i < |history| - 1 && d == OldName(i))
    && (history != [] ==> CURRENT in dirs && IsArchive(dirs[CURRENT], DB_NAME, history[|history| - 1]))
    && (forall i: nat :: i < |history| - 1 ==>
        OldName(i) in dirs && IsArchive(dirs[OldName(i)], OldName(i), history[i]))
    && (NEW in dirs ==> dirs[NEW].copied == None && dirs[NEW].files.Keys <= {NEW})
  }

  /** AIDE finds no differences between the current database and the tracked files. */
  predicate UpToDate(dirs: Dirs, tracked: Disk) {
    CURRENT in dirs && DB_NAME in dirs[CURRENT].files && SameDatabase(dirs[CURRENT].files[DB_NAME], tracked)
  }

  predicate SameDatabase(a: Disk, b: Disk) {
    a.Keys == b.Keys && forall p :: p in a ==> !Differs(a[p], b[p])
  }

  lemma LayoutHas(dirs: Dirs, history: seq<Saved>)
    requires LayoutOf(dirs, history)
    ensures CURRENT in dirs <==> history != []
    ensures forall i: nat :: OldName(i) in dirs <==> i < |history| - 1
  {
    assert "aide.db.current" != "aide.db.new" by { assert "aide.db.current"[8] != "aide.db.new"[8]; }
    forall i: nat ensures OldName(i) in dirs <==> i < |history| - 1 {
      OldNamesApart(i, i);
      forall j: nat ensures OldName(i) == OldName(j) <==> i == j {
        OldNamesApart(i, j);
      }
    }
    forall i: nat ensures OldName(i) != CURRENT {
      OldNamesApart(i, i);
    }
  }

  /** The archived numbers are exactly those of all scans but the last. */
  lemma ArchivedNumbers(dirs: Dirs, history: seq<Saved>, n: nat)
    requires LayoutOf(dirs, history)
    ensures (exists name :: name in dirs && ArchivedNumber(name) == Some(n)) <==> n < |history| - 1
  {
    ArchivedNumberOfOldName(n);
    assert ArchivedNumber(CURRENT) == None && ArchivedNumber(NEW) == None by {
      assert CURRENT[8..][6] == 't' && NEW[8..][2] == 'w';
    }
    if name :| name in dirs && ArchivedNumber(name) == Some(n) {
      var i: nat :| i < |history| - 1 && name == OldName(i);
      ArchivedNumberOfOldName(i);
    }
  }

  function LastOr(versions: Option<seq<nat>>, otherwise: int): int {
    if versions.Some? && versions.value != [] then versions.value[|versions.value| - 1] else otherwise
  }

  function VersionOrInitial(content: Option<string>): int {
    match Parsed(content, -1)
    case Ok(v) => v
    case Err(_) => -1
  }

  /** The version read from the file, unless an archived number is beyond it. */
  function RecentVersion(content: Option<string>, versions: Option<seq<nat>>): Result<int, DbError> {
    var fromFile := VersionOrInitial(content);
    if fromFile < LastOr(versions, -1) then Err(Inconsistent) else Ok(fromFile)
  }

  /** The check that was meant, on the sorted list of archived numbers, would pass in every history and report
      nothing missing; so would the check as it is, which gets no list at all. */
  lemma ConsistencyCheckNeverFires(dirs: Dirs, history: seq<Saved>, content: Option<string>, numbers: seq<nat>)
    requires LayoutOf(dirs, history) && Parsed(content, -1) == Ok(|history| - 1)
    requires NonDecreasing(numbers)
    requires forall n: nat :: n in numbers <==> exists name :: name in dirs && ArchivedNumber(name) == Some(n)
    ensures RecentVersion(content, Some(numbers)) == RecentVersion(content, None) == Ok(|history| - 1)
    ensures MissingRanges(numbers) == []
  {
    hide LayoutOf, MissingRanges;
    forall n: nat ensures n in numbers <==> n < |history| - 1 {
      ArchivedNumbers(dirs, history, n);
    }
    MissingRangesExact(numbers);
    var ranges := MissingRanges(numbers);
    if numbers != [] {
      assert numbers[|numbers| - 1] in numbers;
    }
    if ranges != [] {
      FirstIsInRanges(ranges);
    }
  }

  /** The check as it is and the check that was meant give different results exactly when a number is archived that is
      beyond the version read. */
  lemma DeadCheckExact(dirs: Dirs, content: Option<string>, numbers: seq<nat>)
    requires NonDecreasing(numbers)
    requires forall n: nat :: n in numbers <==> exists name :: name in dirs && ArchivedNumber(name) == Some(n)
    ensures RecentVersion(content, Some(numbers)) != RecentVersion(content, None)
       <==> exists name :: && name in dirs && ArchivedNumber(name).Some?
                           && ArchivedNumber(name).value > VersionOrInitial(content)
  {
    hide ArchivedNumber, Parsed;
    if numbers != [] {
      var last := numbers[|numbers| - 1];
      assert last in numbers;
      forall n | n in numbers ensures n <= last {
        var i :| 0 <= i < |numbers| && numbers[i] == n;
      }
      var top :| top in dirs && ArchivedNumber(top) == Some(last);
    }
    forall name | name in dirs && ArchivedNumber(name).Some? ensures ArchivedNumber(name).value in numbers {
      assert ArchivedNumber(name) == Some(ArchivedNumber(name).value);
    }
    InitialAtLeast(content);
  }

  lemma InitialAtLeast(content: Option<string>)
    ensures VersionOrInitial(content) >= -1
  {
  }

  /** Scan 5 is archived, the file says 0: the check that was meant stops, the check as it is does not. */
  lemma StaleVersionPasses()
    ensures ArchivedNumber("aide.db.5") == Some(5) && Parsed(Some("0"), -1) == Ok(0)
    ensures RecentVersion(Some("0"), Some([5])) == Err(Inconsistent) && RecentVersion(Some("0"), None) == Ok(0)
  {
    assert IntText(5) == "5" && IntText(0) == "0" && OldName(5) == "aide.db.5";
    ArchivedNumberOfOldName(5);
    WrittenIsRead(0, -1);
  }

  lemma FirstIsInRanges(ranges: seq<Range>)
    requires ranges != [] && InOrderAndMaximal(ranges)
    ensures InRanges(ranges[0].first, ranges)
  {
    assert ranges[0] in ranges;
  }

  /******* the rotation *******/

  function Bind(r: Renaming, f: Dirs -> Renaming): Renaming {
    match r
    case Broken(d, e) => Broken(d, e)
    case Renamed(d) => f(d)
  }

  function Archived(dirs: Dirs, num: int): Renaming {
    if CURRENT in dirs
    then Bind(ReplaceFile(dirs, CURRENT, DB_NAME, OldName(num)), d => ReplaceDir(d, CURRENT, OldName(num)))
    else Renamed(dirs)
  }

  function Rotated(dirs: Dirs, num: int): Renaming {
    Bind(Bind(Archived(dirs, num), d => ReplaceFile(d, NEW, NEW, DB_NAME)), d => ReplaceDir(d, NEW, CURRENT))
  }

  lemma ArchivedKeepsLayout(dirs: Dirs, history: seq<Saved>)
    requires LayoutOf(dirs, history) && history != [] && NEW in dirs
    ensures Archived(dirs, |history| - 1).Renamed?
    ensures var k := |history| - 1; var next := Archived(dirs, k).dirs;
            && (forall d :: d in next ==> d == NEW || exists i: nat :: i <= k && d == OldName(i))
            && (forall i: nat :: i <= k ==> OldName(i) in next && IsArchive(next[OldName(i)], OldName(i), history[i]))
            && NEW in next && next[NEW] == dirs[NEW]
  {
    var k := |history| - 1;
    LayoutHas(dirs, history);
    OldNamesApart(k, k);
    forall i: nat ensures OldName(i) == OldName(k) <==> i == k {
      OldNamesApart(i, k);
    }
    forall i: nat ensures OldName(i) != CURRENT && OldName(i) != NEW {
      OldNamesApart(i, i);
    }
    assert CURRENT != NEW by { assert CURRENT[8] != NEW[8]; }
    var file := ReplaceFile(dirs, CURRENT, DB_NAME, OldName(k)).dirs;
    assert file[CURRENT].files == map[OldName(k) := history[k].database];
    assert OldName(k) !in dirs;
  }

  /** No rotation fails, and none overwrites an archive. */
  lemma RotationKeepsLayout(dirs: Dirs, history: seq<Saved>, database: Disk, copies: Option<Disk>)
    requires LayoutOf(dirs, history) && NEW in dirs && dirs[NEW] == DbDir(map[NEW := database], None)
    ensures Rotated(dirs, |history| - 1).Renamed? && CURRENT in Rotated(dirs, |history| - 1).dirs
    ensures var next := Rotated(dirs, |history| - 1).dirs;
            LayoutOf(next[CURRENT := next[CURRENT].(copied := copies)], history + [Saved(database, copies)])
  {
    hide OldName, Archived, Rotated, IsArchive;
    LayoutHas(dirs, history);
    var k := |history| - 1;
    DirNamesApart();
    if history != [] {
      ArchivedKeepsLayout(dirs, history);
    } else {
      NothingArchived(dirs, k);
    }
    var mid := Archived(dirs, k).dirs;
    forall i: nat ensures OldName(i) != CURRENT && OldName(i) != NEW {
      OldNamesApart(i, i);
    }
    RotatedIs(dirs, k, database);
    var next := Rotated(dirs, k).dirs;
    LayoutAfter(mid, next[CURRENT := next[CURRENT].(copied := copies)], history, database, copies);
  }

  lemma DirNamesApart()
    ensures CURRENT != NEW && DB_NAME != NEW
  {
    assert CURRENT[8] != NEW[8];
  }

  lemma NothingArchived(dirs: Dirs, num: int)
    requires CURRENT !in dirs
    ensures Archived(dirs, num) == Renamed(dirs)
  {
  }

  /** The new directory takes the place of the current one, which is gone by then. */
  lemma RotatedIs(dirs: Dirs, num: int, database: Disk)
    requires Archived(dirs, num).Renamed?
    requires var mid := Archived(dirs, num).dirs;
             CURRENT !in mid && NEW in mid && mid[NEW] == DbDir(map[NEW := database], None)
    ensures Rotated(dirs, num).Renamed?
    ensures var mid, next := Archived(dirs, num).dirs, Rotated(dirs, num).dirs;
            && CURRENT in next && next[CURRENT] == DbDir(map[DB_NAME := database], None)
            && next.Keys == mid.Keys - {NEW} + {CURRENT}
            && forall d :: d in mid && d != NEW ==> next[d] == mid[d]
  {
    hide Archived;
    DirNamesApart();
    var mid := Archived(dirs, num).dirs;
    var file := ReplaceFile(mid, NEW, NEW, DB_NAME).dirs;
    assert file[NEW].files == map[DB_NAME := database];
  }

  lemma LayoutAfter(mid: Dirs, next: Dirs, history: seq<Saved>, database: Disk, copies: Option<Disk>)
    requires forall i: nat :: OldName(i) != CURRENT && OldName(i) != NEW
    requires var k := |history| - 1;
             && (forall d :: d in mid ==> d == NEW || exists i: nat :: i <= k && d == OldName(i))
             && (forall i: nat :: i <= k ==> OldName(i) in mid && IsArchive(mid[OldName(i)], OldName(i), history[i]))
    requires CURRENT in next && next[CURRENT] == DbDir(map[DB_NAME := database], copies)
    requires next.Keys == mid.Keys - {NEW} + {CURRENT} && forall d :: d in mid && d != NEW ==>
               d == CURRENT || next[d] == mid[d]
    ensures LayoutOf(next, history + [Saved(database, copies)])
  {
    hide OldName;
    DirNamesApart();
    var after := history + [Saved(database, copies)];
    assert forall i: nat :: i < |history| ==> after[i] == history[i];
  }

  /******* a version file that is behind *******/

  lemma OldNamesApartBelow(m: int, n: nat)
    requires m >= -1
    ensures OldName(m) == OldName(n) <==> m == n
    ensures OldName(m) != CURRENT && OldName(m) != NEW && OldName(m) != DB_NAME
  {
    if m >= 0 {
      OldNamesApart(m, n);
      OldNamesApart(m, m);
    } else {
      assert IntText(-1)[0] == '-' && OldName(m)[8] == '-' && OldName(n)[8..] == Numeral(n, 10);
      NumeralIsWord(n, 10);
      assert OldName(n)[8] == Numeral(n, 10)[0] && Numeral(n, 10)[0] in Numeral(n, 10);
      assert CURRENT[8] == 'c' && NEW[8] == 'n';
    }
  }

  /** The current directory with its database renamed, as it is archived under a number. */
  function Relabelled(dir: DbDir, num: int): DbDir
    requires DB_NAME in dir.files
  {
    dir.(files := (dir.files - {DB_NAME})[OldName(num) := dir.files[DB_NAME]])
  }

  /** What a rotation does with whatever number the version file gave: it breaks off exactly when a scan is archived
      under that number, and then leaves the current directory where it is, its database renamed. Else the current scan
      is archived under the number and every archive stays. */
  lemma RotationExact(dirs: Dirs, history: seq<Saved>, num: int, database: Disk)
    requires LayoutOf(dirs, history) && history != [] && num >= -1
    requires NEW in dirs && dirs[NEW] == DbDir(map[NEW := database], None)
    ensures var o := Rotated(dirs, num);
            && (o.Broken? <==> 0 <= num < |history| - 1)
            && CURRENT in dirs && DB_NAME in dirs[CURRENT].files
            && (o.Broken? ==>
                o == Broken(dirs[CURRENT := Relabelled(dirs[CURRENT], num)], CannotRename(CURRENT, OldName(num))))
            && (o.Renamed? ==>
                  && o.dirs.Keys == dirs.Keys - {NEW} + {OldName(num)}
                  && o.dirs[OldName(num)] == Relabelled(dirs[CURRENT], num)
                  && o.dirs[CURRENT] == DbDir(map[DB_NAME := database], None)
                  && forall i: nat :: i < |history| - 1 ==>
                       OldName(i) in dirs && OldName(i) in o.dirs && o.dirs[OldName(i)] == dirs[OldName(i)])
  {
    hide OldName, LayoutOf, Archived, Rotated;
    DirNamesApart();
    LayoutHas(dirs, history);
    CurrentHasDatabase(dirs, history);
    forall i: nat ensures OldName(num) == OldName(i) <==> num == i {
      OldNamesApartBelow(num, i);
    }
    forall i: nat ensures OldName(i) != CURRENT && OldName(i) != NEW {
      OldNamesApart(i, i);
    }
    OldNamesApartBelow(num, 0);
    if 0 <= num {
      assert OldName(num) in dirs <==> num < |history| - 1;
    } else {
      NothingBelowZero(dirs, history, num);
    }
    if OldName(num) in dirs {
      ArchiveIsNotEmpty(dirs, history, num);
      RotationBreaks(dirs, num);
    } else {
      ArchivedAs(dirs, num);
      RotatedIs(dirs, num, database);
    }
  }

  lemma CurrentHasDatabase(dirs: Dirs, history: seq<Saved>)
    requires LayoutOf(dirs, history) && history != []
    ensures CURRENT in dirs && DB_NAME in dirs[CURRENT].files
  {
    hide OldName;
  }

  lemma NothingBelowZero(dirs: Dirs, history: seq<Saved>, num: int)
    requires LayoutOf(dirs, history) && num == -1
    ensures OldName(num) !in dirs
  {
    forall i: nat ensures OldName(num) != OldName(i) && OldName(num) != CURRENT && OldName(num) != NEW {
      OldNamesApartBelow(num, i);
    }
    OldNamesApartBelow(num, 0);
    hide OldName;
  }

  lemma ArchiveIsNotEmpty(dirs: Dirs, history: seq<Saved>, num: nat)
    requires LayoutOf(dirs, history) && num < |history| - 1
    ensures OldName(num) in dirs && dirs[OldName(num)] != EMPTY
  {
    hide OldName;
    assert OldName(num) in dirs[OldName(num)].files;
  }

  lemma RotationBreaks(dirs: Dirs, num: int)
    requires CURRENT in dirs && DB_NAME in dirs[CURRENT].files && OldName(num) != CURRENT
    requires OldName(num) in dirs && dirs[OldName(num)] != EMPTY
    ensures Rotated(dirs, num)
              == Broken(dirs[CURRENT := Relabelled(dirs[CURRENT], num)], CannotRename(CURRENT, OldName(num)))
  {
    hide OldName;
  }

  lemma ArchivedAs(dirs: Dirs, num: int)
    requires CURRENT in dirs && DB_NAME in dirs[CURRENT].files && OldName(num) != CURRENT && OldName(num) !in dirs
    ensures Archived(dirs, num).Renamed?
    ensures var mid := Archived(dirs, num).dirs;
            && mid.Keys == dirs.Keys - {CURRENT} + {OldName(num)} && mid[OldName(num)] == Relabelled(dirs[CURRENT], num)
            && forall d :: d in dirs && d != CURRENT ==> mid[d] == dirs[d]
  {
    hide OldName;
  }

  /** Rotations one after the other, each with the number read by then and the new directory there is by then. */
  function RotatedAll(dirs: Dirs, later: seq<(int, DbDir)>): Dirs {
    if later == [] then dirs
    else
      var (num, fresh_) := later[|later| - 1];
      Rotated(RotatedAll(dirs, later[..|later| - 1])[NEW := fresh_], num).dirs
  }

  /** Once a rotation broke off no later scan is kept: whatever is scanned and whatever the version file says, every
      directory but that of new results stays as it is. */
  lemma {:induction false} NoLaterScanIsKept(dirs: Dirs, num: int, later: seq<(int, DbDir)>)
    requires num >= -1 && CURRENT in dirs && DB_NAME in dirs[CURRENT].files
    ensures var next := dirs[CURRENT := Relabelled(dirs[CURRENT], num)];
            RotatedAll(next, later) - {NEW} == next - {NEW}
  {
    hide OldName, Rotated;
    var next := dirs[CURRENT := Relabelled(dirs[CURRENT], num)];
    if later != [] {
      var init, last := later[..|later| - 1], later[|later| - 1];
      NoLaterScanIsKept(dirs, num, init);
      var before := RotatedAll(next, init);
      DirNamesApart();
      OldNamesApartBelow(num, 0);
      assert before - {NEW} == next - {NEW};
      assert CURRENT in before - {NEW} && (before - {NEW})[CURRENT] == Relabelled(dirs[CURRENT], num);
      WithoutDatabaseBreaks(before[NEW := last.1], last.0);
      assert before[NEW := last.1] - {NEW} == before - {NEW};
    }
  }

  lemma WithoutDatabaseBreaks(dirs: Dirs, num: int)
    requires CURRENT in dirs && DB_NAME !in dirs[CURRENT].files
    ensures Rotated(dirs, num) == Broken(dirs, CannotRename(DB_NAME, OldName(num)))
  {
    hide OldName;
  }

  /** The database of the clients at a version: a file of the directory archived under that number. */
  function ClientDb(dirs: Dirs, version: int): Result<Disk, DbError> {
    if version >= 0 && OldName(version) in dirs && OldName(version) in dirs[OldName(version)].files
    then Ok(dirs[OldName(version)].files[OldName(version)])
    else Err(UnknownVersion(version))
  }

  /** Every scan but the last is found, with its copies, and nothing else is. */
  lemma ClientDbExact(dirs: Dirs, history: seq<Saved>, version: int)
    requires LayoutOf(dirs, history)
    ensures ClientDb(dirs, version)
         == if 0 <= version < |history| - 1 then Ok(history[version].database) else Err(UnknownVersion(version))
    ensures 0 <= version < |history| - 1 ==>
              OldName(version) in dirs && dirs[OldName(version)].copied == history[version].copied
  {
    LayoutHas(dirs, history);
    hide OldName;
  }

  /** With a version file that cannot be read the rotation goes through, but the archived numbers stay what they were:
      no image can start from the scan that was current, though a directory keeps it. */
  lemma UnreadableVersionLosesScan(dirs: Dirs, history: seq<Saved>, content: Option<string>, database: Disk, n: nat)
    requires LayoutOf(dirs, history) && history != [] && Parsed(content, -1).Err?
    requires NEW in dirs && dirs[NEW] == DbDir(map[NEW := database], None)
    ensures var o := Rotated(dirs, VersionOrInitial(content));
            && o.Renamed? && OldName(-1) in o.dirs
              && o.dirs[OldName(-1)].files == map[OldName(-1) := history[|history| - 1].database]
            && ((exists name :: name in o.dirs && ArchivedNumber(name) == Some(n)) <==> n < |history| - 1)
  {
    hide OldName, LayoutOf, Rotated, ArchivedNumber, Parsed;
    RotationExact(dirs, history, -1, database);
    ArchivedNumbers(dirs, history, n);
    NoNumber();
    CurrentIsLastScan(dirs, history);
    var o := Rotated(dirs, -1);
    if name :| name in o.dirs && ArchivedNumber(name) == Some(n) {
      assert name in dirs;
    }
    if name :| name in dirs && ArchivedNumber(name) == Some(n) {
      assert name in o.dirs;
    }
  }

  lemma CurrentIsLastScan(dirs: Dirs, history: seq<Saved>)
    requires LayoutOf(dirs, history) && history != []
    ensures CURRENT in dirs && dirs[CURRENT].files == map[DB_NAME := history[|history| - 1].database]
    ensures Relabelled(dirs[CURRENT], -1).files == map[OldName(-1) := history[|history| - 1].database]
  {
    hide OldName;
  }

  lemma NoNumber()
    ensures ArchivedNumber(OldName(-1)) == None && ArchivedNumber(CURRENT) == None && ArchivedNumber(NEW) == None
  {
    assert IntText(-1) == "-1";
    assert OldName(-1)[8..] == "-1" && "-1"[..1] == "-";
    assert CURRENT[8..][6] == 't' && NEW[8..][2] == 'w';
  }

  class AideDatabasesManager {
    const dbVerFile: VersionFile
    var dirs: Dirs
    ghost var history: seq<Saved>

    /** After k scans the stored version is k-1. */
    ghost predicate Valid() reads this, dbVerFile {
      && dbVerFile.startingValue == -1
      && Parsed(dbVerFile.content, -1) == Ok(|history| - 1)
      && LayoutOf(dirs, history)
    }

    constructor (dbVerFile: VersionFile)
      requires dbVerFile.startingValue == -1 && Parsed(dbVerFile.content, -1) == Ok(-1)
      ensures this.dbVerFile == dbVerFile && dirs == map[] && history == [] && Valid()
    {
      this.dbVerFile, dirs, history := dbVerFile, map[], [];
    }

    method GetAideDbVerList() returns (numbers: seq<nat>)
      ensures forall n: nat :: n in numbers <==> exists name :: name in dirs && ArchivedNumber(name) == Some(n)
    {
      numbers := [];
      var names := dirs.Keys;
      while names != {}
        invariant names <= dirs.Keys
        invariant forall n: nat :: n in numbers <==>
                      exists name :: name in dirs && name !in names && ArchivedNumber(name) == Some(n)
        decreases |names|
      {
        var name :| name in names;
        match ArchivedNumber(name) {
          case None =>
          case Some(n) => numbers := numbers + [n];
        }
        names := names - {name};
      }
    }

    /** `list.sort` returns None, so the list that was collected is not looked at. */
    method GetRecentAideDbVersion() returns (r: Result<int, DbError>)
      modifies dbVerFile
      ensures r == RecentVersion(old(dbVerFile.content), None) == Ok(VersionOrInitial(old(dbVerFile.content)))
      ensures dbVerFile.content == old(dbVerFile.content)
      requires dbVerFile.startingValue == -1
    {
      var parsed := dbVerFile.Parse(false);
      var fromFile := match parsed case Ok(v) => v case Err(_) => -1;
      var numbers := GetAideDbVerList();
      var versions: Option<seq<nat>> := None;
      if fromFile < LastOr(versions, -1) {
        return Err(Inconsistent);
      }
      r := Ok(fromFile);
    }

    method ReplaceOldAideDbWithNewOne() returns (r: Result<int, DbError>)
      requires dbVerFile.startingValue == -1
      modifies this, dbVerFile
      ensures history == old(history)
      ensures dirs == Rotated(old(dirs), VersionOrInitial(old(dbVerFile.content))).dirs
      ensures match Rotated(old(dirs), VersionOrInitial(old(dbVerFile.content)))
              case Broken(_, e) => r == Err(e) && dbVerFile.content == old(dbVerFile.content)
              case Renamed(_) =>
                match Parsed(old(dbVerFile.content), -1)
                case Err(e) => r == Err(VersionNotWritten(e)) && dbVerFile.content == old(dbVerFile.content)
                case Ok(v) => r == Ok(v + 1) && Parsed(dbVerFile.content, -1) == Ok(v + 1)
    {
      if CURRENT in dirs {
        var num := GetRecentAideDbVersion();
        var archived := ReplaceFile(dirs, CURRENT, DB_NAME, OldName(num.value));
        dirs := archived.dirs;
        if archived.Broken? {
          return Err(archived.error);
        }
        archived := ReplaceDir(dirs, CURRENT, OldName(num.value));
        dirs := archived.dirs;
        if archived.Broken? {
          return Err(archived.error);
        }
      }
      var renamed := ReplaceFile(dirs, NEW, NEW, DB_NAME);
      dirs := renamed.dirs;
      if renamed.Broken? {
        return Err(renamed.error);
      }
      renamed := ReplaceDir(dirs, NEW, CURRENT);
      dirs := renamed.dirs;
      if renamed.Broken? {
        return Err(renamed.error);
      }
      var version := dbVerFile.Increment(false);
      if version.Err? {
        return Err(VersionNotWritten(version.error));
      }
      WrittenIsRead(version.value, -1);
      r := Ok(version.value);
    }

    method CreateTmpOutDirIfDoesntExist()
      requires Valid()
      modifies this`dirs
      ensures Valid() && NEW in dirs
    {
      hide LayoutOf, Parsed;
      NewIsFresh(dirs, history);
      if NEW !in dirs {
        dirs := dirs[NEW := EMPTY];
      }
      LayoutWithNew(old(dirs), history, dirs);
    }

    /** `aide --init` writes the new database. */
    method AideInit(tracked: Disk)
      requires Valid() && NEW in dirs
      modifies this`dirs
      ensures Valid() && NEW in dirs && dirs[NEW] == DbDir(map[NEW := tracked], None)
    {
      hide LayoutOf, Parsed;
      NewIsFresh(dirs, history);
      dirs := dirs[NEW := dirs[NEW].(files := dirs[NEW].files[NEW := tracked])];
      LayoutWithNew(old(dirs), history, dirs);
      assert dirs[NEW].files == map[NEW := tracked];
    }

    /** A scan of the tracked files. AIDE may fail, and so may the copying that comes last, or making its directory. */
    method Scan(tracked: Disk, aideOk: bool, copies: Option<Disk>, copyOk: bool) returns (r: Result<(), DbError>)
      requires Valid()
      modifies this, dbVerFile
      ensures Valid()
      ensures UpToDate(old(dirs), tracked) ==> r == Ok(()) && history == old(history) && dirs == old(dirs)
      ensures !UpToDate(old(dirs), tracked) && !aideOk ==> r == Err(ScanFailed) && history == old(history)
      ensures !UpToDate(old(dirs), tracked) && aideOk ==>
                && history == old(history) + [Saved(tracked, copies)]
                && r == if copyOk && copies.Some? then Ok(()) else Err(CopyFailed)
    {
      hide LayoutOf, Parsed, Rotated, UpToDate, OldName, IsArchive;
      if UpToDate(dirs, tracked) {
        return Ok(());
      }
      CreateTmpOutDirIfDoesntExist();
      if !aideOk {
        return Err(ScanFailed);
      }
      AideInit(tracked);
      RotationKeepsLayout(dirs, history, tracked, copies);
      var rotated := ReplaceOldAideDbWithNewOne();
      dirs := dirs[CURRENT := dirs[CURRENT].(copied := copies)];
      history := history + [Saved(tracked, copies)];
      r := if copyOk && copies.Some? then Ok(()) else Err(CopyFailed);
    }

    /** The text copies an archived scan keeps beside its database. */
    method GetCopied(version: int) returns (copied: Option<Disk>)
      requires ClientDb(dirs, version).Ok?
      ensures copied == dirs[OldName(version)].copied
      ensures LayoutOf(dirs, history) ==> 0 <= version < |history| - 1 && copied == history[version].copied
    {
      if LayoutOf(dirs, history) {
        ClientDbExact(dirs, history, version);
      }
      copied := dirs[OldName(version)].copied;
    }

    /** Only an archived database can be the one of a client. */
    method GetClientDb(version: int) returns (r: Result<Disk, DbError>)
      ensures r == ClientDb(dirs, version)
      ensures LayoutOf(dirs, history) ==>
                r == if 0 <= version < |history| - 1 then Ok(history[version].database)
                    else Err(UnknownVersion(version))
    {
      if LayoutOf(dirs, history) {
        ClientDbExact(dirs, history, version);
      }
      if version < 0 {
        return Err(UnknownVersion(version));
      }
      var name := OldName(version);
      if name in dirs && name in dirs[name].files {
        return Ok(dirs[name].files[name]);
      }
      r := Err(UnknownVersion(version));
    }
  }

  lemma NewIsFresh(dirs: Dirs, history: seq<Saved>)
    requires LayoutOf(dirs, history)
    ensures NEW in dirs ==> dirs[NEW].copied == None && dirs[NEW].files.Keys <= {NEW}
  {
  }

  lemma LayoutWithNew(dirs: Dirs, history: seq<Saved>, next: Dirs)
    requires LayoutOf(dirs, history)
    requires next.Keys == dirs.Keys + {NEW} && forall d :: d in dirs && d != NEW ==> next[d] == dirs[d]
    requires next[NEW].copied == None && next[NEW].files.Keys <= {NEW}
    ensures LayoutOf(next, history)
  {
    forall i: nat ensures OldName(i) != CURRENT && OldName(i) != NEW {
      OldNamesApart(i, i);
    }
    assert CURRENT != NEW by { assert CURRENT[8] != NEW[8]; }
  }
}
