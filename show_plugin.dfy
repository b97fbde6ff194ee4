/**
 * The pure logic of the show plugin (obnamlib/plugins/show_plugin.py):
 * age settings such as "36h", trailing-slash removal for ls arguments, the
 * ls-style permission string, the nagios-last-backup-age verdict, and the
 * choice and comparison of two generations for diff.
 *
 * The repository is reduced to what these pieces read from it: generation
 * start times, the list of generation ids, and the names in a directory.
 */
module ShowPlugin {
  import opened Outcomes
  import opened Numerals

  /** The ValueError raised by _convert_time. */
  datatype ValueError = ValueError

  // ---------------------------------------------------------------------
  // _convert_time
  // ---------------------------------------------------------------------

  /** Seconds per unit: s, m, h, d and w; any other letter is a ValueError. */
  function UnitFactor(u: char): Option<nat>
  {
    match u
    case 's' => Some(1)
    case 'm' => Some(60)
    case 'h' => Some(60 * 60)
    case 'd' => Some(60 * 60 * 24)
    case 'w' => Some(60 * 60 * 24 * 7)
    case _ => None
  }

  /** The part of s that the pattern must cover: Python's $ also matches
      just before a single newline that ends the string. */
  function Body(s: string): string
  {
    if |s| > 0 && s[|s| - 1] == '\n' then s[..|s| - 1] else s
  }

  function Scale(ticks: nat, unit: char): Result<nat, ValueError>
  {
    match UnitFactor(unit)
    case None => Err(ValueError)
    case Some(f) => Ok(ticks * f)
  }

  /** _convert_time: digits, then an optional unit letter among s m h d w
      (defaultUnit when absent), to a number of seconds. */
  function ConvertTime(s: string, defaultUnit: char): (r: Result<nat, ValueError>)
    ensures r.Ok? ==> |Body(s)| >= 1 && IsDigit(Body(s)[0])
  {
    var b := Body(s);
    if |b| == 0 then Err(ValueError)
    else if AllDigits(b) then Scale(Decimal(b), defaultUnit)
    else if |b| >= 2 && AllDigits(b[..|b| - 1]) && UnitFactor(b[|b| - 1]).Some? then
      Scale(Decimal(b[..|b| - 1]), b[|b| - 1])
    else Err(ValueError)
  }

  /** The pattern ([0-9]+)([smhdw])?$ of the source, written as a
      character-by-character grammar. */
  predicate MatchesAgePattern(s: string)
  {
    var b := Body(s);
    |b| >= 1 && IsDigit(b[0]) &&
    (forall i :: 0 < i < |b| - 1 ==> IsDigit(b[i])) &&
    (IsDigit(b[|b| - 1]) || b[|b| - 1] in "smhdw")
  }

  /** An age with its unit letter converts to int() of its digits (leading
      zeros allowed) times the unit's seconds, whatever the default unit. */
  lemma ConvertTimeWithUnit(d: string, unit: char, defaultUnit: char)
    requires |d| >= 1 && AllDigits(d) && UnitFactor(unit).Some?
    ensures ConvertTime(d + [unit], defaultUnit) == Ok(Decimal(d) * UnitFactor(unit).value)
  {
    UnitSuffix(d, unit);
    var s := d + [unit];
    assert ConvertTime(s, defaultUnit) == Scale(Decimal(d), unit);
  }

  /** Digits followed by a unit letter: the body is the whole string, which
      is not all digits, and dropping the letter leaves the digits. */
  lemma UnitSuffix(d: string, unit: char)
    requires |d| >= 1 && AllDigits(d) && UnitFactor(unit).Some?
    ensures var s := d + [unit];
      Body(s) == s && |s| >= 2 && !AllDigits(s) && s[..|s| - 1] == d && s[|s| - 1] == unit
  {
    var s := d + [unit];
    var last := |d|;
    assert |s| == last + 1 && s[last] == unit;
    assert !IsDigit(unit) && unit != '\n';
    assert !AllDigits(s);
    assert s[..last] == d;
  }

  /** In particular the decimal form of n with a unit letter is n units. */
  lemma ConvertTimeOfDecimal(n: nat, unit: char, defaultUnit: char)
    requires UnitFactor(unit).Some?
    ensures ConvertTime(DecimalString(n) + [unit], defaultUnit) == Ok(n * UnitFactor(unit).value)
  {
    DecimalOfDecimalString(n);
    ConvertTimeWithUnit(DecimalString(n), unit, defaultUnit);
  }

  /** Like Python's $, the pattern also matches before one trailing
      newline: a setting converts as it would without it. */
  lemma ConvertTimeIgnoresNewline(s: string, defaultUnit: char)
    requires |s| == 0 || s[|s| - 1] != '\n'
    ensures ConvertTime(s + "\n", defaultUnit) == ConvertTime(s, defaultUnit)
  {
    assert (s + "\n")[..|s|] == s;
  }

  /** A bare number is int() of its digits in the default unit; a default
      unit outside s m h d w is a ValueError. */
  lemma ConvertTimeDefaultUnit(d: string, defaultUnit: char)
    requires |d| >= 1 && AllDigits(d)
    ensures ConvertTime(d, defaultUnit) ==
      if defaultUnit in "smhdw" then Ok(Decimal(d) * UnitFactor(defaultUnit).value) else Err(ValueError)
  {
    assert Body(d) == d by { assert IsDigit(d[|d| - 1]); }
  }

  /** With the default unit h, as the plugin calls it, a setting is accepted
      exactly when it matches the pattern. */
  lemma ConvertTimeAccepts(s: string)
    ensures ConvertTime(s, 'h').Ok? <==> MatchesAgePattern(s)
  {
    var b := Body(s);
    if |b| >= 1 {
      var d := b[..|b| - 1];
      if MatchesAgePattern(s) && !AllDigits(b) {
        assert AllDigits(d) by {
          forall i | 0 <= i < |d| ensures IsDigit(d[i]) {
            if i > 0 { assert IsDigit(b[i]); }
          }
        }
      }
      if ConvertTime(s, 'h').Ok? && !AllDigits(b) {
        assert forall i :: 0 <= i < |d| ==> IsDigit(d[i]);
      }
    }
  }

  lemma ConvertTimeExamples()
    ensures ConvertTime("12", 'h') == Ok(43200)
    ensures ConvertTime("30m", 'h') == Ok(1800)
    ensures ConvertTime("2w", 'h') == Ok(1209600)
    ensures ConvertTime("007s\n", 'h') == Ok(7)
  {
    assert "12"[..1] == "1";
    assert AllDigits("12") && Decimal("12") == 12;
    assert "30m"[..2] == "30" && "30"[..1] == "3";
    assert "2w"[..1] == "2";
    assert Body("007s\n") == "007s";
    assert "007s"[..3] == "007" && "007"[..2] == "00" && "00"[..1] == "0";
  }

  lemma ConvertTimeRejects()
    ensures ConvertTime("", 'h') == Err(ValueError)
    ensures ConvertTime("h", 'h') == Err(ValueError)
    ensures ConvertTime("5x", 'h') == Err(ValueError)
    ensures ConvertTime("1h2", 'h') == Err(ValueError)
    ensures ConvertTime("3d\n\n", 'h') == Err(ValueError)
  {
    assert !AllDigits("1h2") by { assert !IsDigit("1h2"[1]); }
    assert !AllDigits("1h2"[..2]) by { assert !IsDigit("1h2"[1]); }
    assert Body("3d\n\n") == "3d\n";
    assert !AllDigits("3d\n"[..2]) by { assert !IsDigit("3d\n"[1]); }
  }

  // ---------------------------------------------------------------------
  // remove_trailing_slashes
  // ---------------------------------------------------------------------

  /** The name with its trailing slashes removed, keeping the root "/". */
  function Stripped(f: string): string
  {
    if |f| > 0 && f[|f| - 1] == '/' && f != "/" then Stripped(f[..|f| - 1]) else f
  }

  /** remove_trailing_slashes: drop one '/' at a time while the name ends
      in '/' and is not "/" itself. */
  method RemoveTrailingSlashes(filename: string) returns (r: string)
    ensures r == Stripped(filename)
  {
    r := filename;
    while |r| > 0 && r[|r| - 1] == '/' && r != "/"
      invariant Stripped(r) == Stripped(filename)
      decreases |r|
    {
      r := r[..|r| - 1];
    }
  }

  /** What remains is a prefix of the name, non-empty for a non-empty name,
      followed only by slashes, and it does not end in '/' unless it is "/". */
  lemma {:induction false} StrippedShape(f: string)
    ensures |Stripped(f)| <= |f| && Stripped(f) == f[..|Stripped(f)|]
    ensures f != [] ==> Stripped(f) != []
    ensures forall i :: |Stripped(f)| <= i < |f| ==> f[i] == '/'
    ensures Stripped(f) == "/" || Stripped(f) == [] || Stripped(f)[|Stripped(f)| - 1] != '/'
  {
    if |f| > 0 && f[|f| - 1] == '/' && f != "/" {
      var g := f[..|f| - 1];
      StrippedShape(g);
      assert g[..|Stripped(g)|] == f[..|Stripped(g)|];
    }
  }

  /** Those four facts pin the result down: any prefix with them is it. */
  lemma {:induction false} StrippedUnique(f: string, p: string)
    requires |p| <= |f| && p == f[..|p|]
    requires f != [] ==> p != []
    requires forall i :: |p| <= i < |f| ==> f[i] == '/'
    requires p == "/" || p == [] || p[|p| - 1] != '/'
    ensures Stripped(f) == p
  {
    if |f| > |p| {
      var g := f[..|f| - 1];
      assert f != "/";
      assert p == g[..|p|];
      StrippedUnique(g, p);
    } else {
      assert p == f;
    }
  }

  lemma StrippedIdempotent(f: string)
    ensures Stripped(Stripped(f)) == Stripped(f)
  {
    var p := Stripped(f);
    StrippedShape(f);
    StrippedUnique(p, p);
  }

  lemma StrippedExamples()
    ensures Stripped("a//") == "a"
    ensures Stripped("///") == "/"
    ensures Stripped("/") == "/"
    ensures Stripped("/home/liw/") == "/home/liw"
  {
    assert "a//"[..2] == "a/" && "a/"[..1] == "a";
    assert "///"[..2] == "//" && "//"[..1] == "/";
    assert "/home/liw/"[..9] == "/home/liw";
  }

  // ---------------------------------------------------------------------
  // The permission string of ls (part of fields)
  // ---------------------------------------------------------------------

  /** Only the low 16 bits of st_mode can meet the masks below. */
  type Mode = bv16

  const S_IFMT: Mode := 0xF000   // 0o170000
  const S_IFREG: Mode := 0x8000  // 0o100000
  const S_IFDIR: Mode := 0x4000  // 0o040000
  const S_IFLNK: Mode := 0xA000  // 0o120000
  const S_IFIFO: Mode := 0x1000  // 0o010000
  const S_IFCHR: Mode := 0x2000  // 0o020000
  const S_IFBLK: Mode := 0x6000  // 0o060000
  const S_IFSOCK: Mode := 0xC000 // 0o140000

  /** One row of the table: if all bits of bitmap are set, the character
      goes to position offset. */
  datatype Paint = Paint(bitmap: Mode, offset: Position, ch: char)

  /** A position in the ten-character permission string. */
  type Position = j: nat | j < 10

  const PermissionTable: seq<Paint> := [
    Paint(S_IFREG, 0, '-'),
    Paint(S_IFDIR, 0, 'd'),
    Paint(S_IFLNK, 0, 'l'),
    Paint(S_IFIFO, 0, 'p'),
    Paint(0x100, 1, 'r'),  // S_IRUSR
    Paint(0x080, 2, 'w'),  // S_IWUSR
    Paint(0x040, 3, 'x'),  // S_IXUSR
    Paint(0x020, 4, 'r'),  // S_IRGRP
    Paint(0x010, 5, 'w'),  // S_IWGRP
    Paint(0x008, 6, 'x'),  // S_IXGRP
    Paint(0x004, 7, 'r'),  // S_IROTH
    Paint(0x002, 8, 'w'),  // S_IWOTH
    Paint(0x001, 9, 'x')   // S_IXOTH
  ]

  /** metadata.st_mode or 0, reduced to the bits the table can test. */
  function ModeOf(stMode: Option<nat>): Mode
  {
    if stMode.None? then 0 else (stMode.value % 0x1_0000) as Mode
  }

  predicate Has(m: Mode, bitmap: Mode)
  {
    m & bitmap == bitmap
  }

  /** The permission bit shown at position j (1..9): 0o400 >> (j - 1). */
  function PermissionBit(j: nat): Mode
    requires 1 <= j <= 9
  {
    (0x100 as Mode) >> (j - 1)
  }

  /** Position j of the string: r, w or x when its bit is set, else '-'. */
  function BitChar(m: Mode, j: nat): char
    requires 1 <= j <= 9
  {
    if Has(m, PermissionBit(j)) then "rwxrwxrwx"[j - 1] else '-'
  }

  /** The type character the table produces: the LAST file-type mask all of
      whose bits are set wins, '?' if none is. */
  function TypeCharAsWritten(m: Mode): char
  {
    if Has(m, S_IFIFO) then 'p'
    else if Has(m, S_IFLNK) then 'l'
    else if Has(m, S_IFDIR) then 'd'
    else if Has(m, S_IFREG) then '-'
    else '?'
  }

  /** The type character ls means: the file-type field S_IFMT compared for
      equality, '?' for the types the table does not list. */
  function TypeChar(m: Mode): char
  {
    var t := m & S_IFMT;
    if t == S_IFREG then '-'
    else if t == S_IFDIR then 'd'
    else if t == S_IFLNK then 'l'
    else if t == S_IFIFO then 'p'
    else '?'
  }

  /** Position 0 after the first n rows (n <= 4): the last of those
      file-type rows whose bits are all set, else '?'. */
  function TypeCharAfter(m: Mode, n: nat): char
    requires n <= 4
  {
    if n == 0 then '?'
    else if Has(m, PermissionTable[n - 1].bitmap) then PermissionTable[n - 1].ch
    else TypeCharAfter(m, n - 1)
  }

  lemma TypeCharAfterTypeRows(m: Mode)
    ensures TypeCharAfter(m, 4) == TypeCharAsWritten(m)
  {
    TypeRows();
    assert TypeCharAfter(m, 1) == if Has(m, S_IFREG) then '-' else '?';
    assert TypeCharAfter(m, 2) == if Has(m, S_IFDIR) then 'd' else TypeCharAfter(m, 1);
    assert TypeCharAfter(m, 3) == if Has(m, S_IFLNK) then 'l' else TypeCharAfter(m, 2);
    assert TypeCharAfter(m, 4) == if Has(m, S_IFIFO) then 'p' else TypeCharAfter(m, 3);
  }

  lemma TypeRows()
    ensures PermissionTable[0] == Paint(S_IFREG, 0, '-')
    ensures PermissionTable[1] == Paint(S_IFDIR, 0, 'd')
    ensures PermissionTable[2] == Paint(S_IFLNK, 0, 'l')
    ensures PermissionTable[3] == Paint(S_IFIFO, 0, 'p')
  {
  }

  /** Rows 0 to 3 of the table write position 0, rows 4 to 12 one
      permission bit each, for positions 1 to 9 in order. */
  lemma PermissionRow(i: nat)
    requires i < |PermissionTable|
    ensures i < 4 ==> PermissionTable[i].offset == 0
    ensures i >= 4 ==> PermissionTable[i] == Paint(PermissionBit(i - 3), i - 3, "rwxrwxrwx"[i - 4])
  {
  }

  /** The permission string of fields, as written: start from "?---------"
      and let every table row whose bits are all set in the mode write its
      character. */
  method PermissionStringAsWritten(stMode: Option<nat>) returns (perms: string)
    ensures |perms| == 10
    ensures perms[0] == TypeCharAsWritten(ModeOf(stMode))
    ensures forall j :: 1 <= j <= 9 ==> perms[j] == BitChar(ModeOf(stMode), j)
  {
    perms := PaintPermissions(ModeOf(stMode));
    TypeCharAfterTypeRows(ModeOf(stMode));
  }

  /** The string after the first n rows of the table have been applied. */
  function Painted(mode: Mode, n: nat): (r: string)
    requires n <= |PermissionTable|
    ensures |r| == 10
  {
    if n == 0 then "?---------"
    else
      var p := Painted(mode, n - 1);
      var row := PermissionTable[n - 1];
      if Has(mode, row.bitmap) then p[row.offset := row.ch] else p
  }

  /** Applying row i to the string after the first i rows. */
  lemma PaintedStep(mode: Mode, i: nat)
    requires i < |PermissionTable|
    ensures var row := PermissionTable[i];
      Painted(mode, i + 1) == if Has(mode, row.bitmap) then Painted(mode, i)[row.offset := row.ch] else Painted(mode, i)
  {
  }

  /** After the file-type rows: position 0 as TypeCharAfter says, the
      permission positions untouched. */
  lemma {:induction false} PaintedTypeRows(mode: Mode, n: nat)
    requires n <= 4
    ensures Painted(mode, n)[0] == TypeCharAfter(mode, n)
    ensures forall j :: 1 <= j <= 9 ==> Painted(mode, n)[j] == '-'
  {
    if n > 0 {
      PaintedTypeRows(mode, n - 1);
      PermissionRow(n - 1);
    }
  }

  /** After row n (4 <= n): position 0 is final, and positions 1 to n - 4
      hold their permission characters. */
  lemma {:induction false} PaintedBitRows(mode: Mode, n: nat)
    requires 4 <= n <= |PermissionTable|
    ensures Painted(mode, n)[0] == TypeCharAfter(mode, 4)
    ensures forall j :: 1 <= j <= 9 ==> Painted(mode, n)[j] == (if j <= n - 4 then BitChar(mode, j) else '-')
  {
    if n == 4 {
      PaintedTypeRows(mode, 4);
    } else {
      PaintedBitRows(mode, n - 1);
      PermissionRow(n - 1);
    }
  }

  /** The table loop of fields over the mode bits: position 0 holds what
      the four file-type rows left there. */
  method PaintPermissions(mode: Mode) returns (perms: string)
    ensures |perms| == 10
    ensures perms[0] == TypeCharAfter(mode, 4)
    ensures forall j :: 1 <= j <= 9 ==> perms[j] == BitChar(mode, j)
  {
    var table := PermissionTable;
    perms := "?---------";
    for i := 0 to |table|
      invariant table == PermissionTable
      invariant perms == Painted(mode, i)
    {
      var entry := table[i];
      PaintedStep(mode, i);
      if Has(mode, entry.bitmap) {
        perms := perms[entry.offset := entry.ch];
      }
    }
    PaintedBitRows(mode, |table|);
  }

  /** The permission string with the type character taken from the
      file-type field; the nine permission characters are the table's. */
  method PermissionString(stMode: Option<nat>) returns (perms: string)
    ensures |perms| == 10
    ensures perms[0] == TypeChar(ModeOf(stMode))
    ensures forall j :: 1 <= j <= 9 ==> perms[j] == BitChar(ModeOf(stMode), j)
  {
    perms := PermissionStringAsWritten(stMode);
    perms := perms[0 := TypeChar(ModeOf(stMode))];
  }

  /** The corrected type character names each listed type exactly. */
  lemma TypeCharExact(m: Mode)
    ensures TypeChar(m) == '-' <==> m & S_IFMT == S_IFREG
    ensures TypeChar(m) == 'd' <==> m & S_IFMT == S_IFDIR
    ensures TypeChar(m) == 'l' <==> m & S_IFMT == S_IFLNK
    ensures TypeChar(m) == 'p' <==> m & S_IFMT == S_IFIFO
  {
  }

  /** The table gets regular files, directories, symlinks, FIFOs, character
      devices and type-less modes right: there both characters agree. */
  lemma TypeCharAgreesOnListedTypes(m: Mode)
    requires m & S_IFMT in {0, S_IFREG, S_IFDIR, S_IFLNK, S_IFIFO, S_IFCHR}
    ensures TypeCharAsWritten(m) == TypeChar(m)
  {
  }

  /** A socket (0o140755) and a block device (0o060644) are not
      directories, yet the table shows both with 'd', because S_IFDIR's one
      bit is set in their type field. */
  lemma SocketShownAsDirectory()
    ensures 0xC1ED & S_IFMT == S_IFSOCK && TypeCharAsWritten(0xC1ED) == 'd' && TypeChar(0xC1ED) == '?'
    ensures 0x61A4 & S_IFMT == S_IFBLK && TypeCharAsWritten(0x61A4) == 'd' && TypeChar(0x61A4) == '?'
  {
  }

  // ---------------------------------------------------------------------
  // nagios-last-backup-age
  // ---------------------------------------------------------------------

  /** The three nagios results, with exit codes 0, 1 and 2. */
  datatype Status = StatusOk | StatusWarning | StatusCritical
  {
    function ExitCode(): nat
    {
      match this
      case StatusOk => 0
      case StatusWarning => 1
      case StatusCritical => 2
    }
  }

  /** The threshold chain: no backup or older than the critical age is
      CRITICAL, else older than the warning age is WARNING, else OK. */
  function Verdict(mostRecent: Option<int>, now: int, warnAge: int, criticalAge: int): Status
  {
    if mostRecent.None? then StatusCritical
    else if now - mostRecent.value > criticalAge then StatusCritical
    else if now - mostRecent.value > warnAge then StatusWarning
    else StatusOk
  }

  /** An older last backup never gets a better status. */
  lemma VerdictMonotone(recent: int, older: int, now: int, warnAge: int, criticalAge: int)
    requires older <= recent
    ensures Verdict(Some(recent), now, warnAge, criticalAge).ExitCode()
         <= Verdict(Some(older), now, warnAge, criticalAge).ExitCode()
    ensures Verdict(None, now, warnAge, criticalAge).ExitCode() == 2
  {
  }

  /** The most recent start time over all generations, None if there are
      none. */
  method MostRecentStart(starts: seq<int>) returns (m: Option<int>)
    ensures m.None? <==> starts == []
    ensures m.Some? ==> m.value in starts
    ensures m.Some? ==> forall i :: 0 <= i < |starts| ==> starts[i] <= m.value
  {
    m := None;
    var i := 0;
    while i < |starts|
      invariant 0 <= i <= |starts|
      invariant m.None? <==> i == 0
      invariant m.Some? ==> m.value in starts[..i]
      invariant m.Some? ==> forall k :: 0 <= k < i ==> starts[k] <= m.value
    {
      if m.None? || starts[i] > m.value {
        m := Some(starts[i]);
      }
      i := i + 1;
    }
    assert starts[..i] == starts;
  }

  /** nagios_last_backup_age: convert both age settings (a ValueError
      escapes), find the most recent backup, and classify its age. The
      result is stated per generation: the status is CRITICAL when no
      generation started within the critical age, OK when one started
      within the warning age too, and WARNING otherwise. */
  method NagiosLastBackupAge(starts: seq<int>, now: int, warnSetting: string, criticalSetting: string)
    returns (r: Result<Status, ValueError>)
    ensures r.Err? <==> ConvertTime(warnSetting, 'h').Err? || ConvertTime(criticalSetting, 'h').Err?
    ensures r.Ok? ==>
      var warnAge := ConvertTime(warnSetting, 'h').value;
      var criticalAge := ConvertTime(criticalSetting, 'h').value;
      (r.value == StatusCritical <==> forall i :: 0 <= i < |starts| ==> now - starts[i] > criticalAge) &&
      (r.value == StatusOk <==>
        (exists i :: 0 <= i < |starts| && now - starts[i] <= criticalAge) &&
        (exists i :: 0 <= i < |starts| && now - starts[i] <= warnAge))
  {
    var warnAge := ConvertTime(warnSetting, 'h');
    if warnAge.Err? {
      return Err(ValueError);
    }
    var criticalAge := ConvertTime(criticalSetting, 'h');
    if criticalAge.Err? {
      return Err(ValueError);
    }
    var mostRecent := MostRecentStart(starts);
    r := Ok(Verdict(mostRecent, now, warnAge.value, criticalAge.value));
    if mostRecent.Some? {
      var k :| 0 <= k < |starts| && starts[k] == mostRecent.value;
    }
  }

  /** Both age settings default to the same constant,
      DEFAULT_NAGIOS_WARN_AGE, so with the defaults WARNING is never
      reported: a backup is either recent enough or critical. */
  method NagiosWithDefaultSettings(starts: seq<int>, now: int, defaultWarnAge: string)
    returns (r: Result<Status, ValueError>)
    ensures r.Ok? ==> r.value != StatusWarning
  {
    r := NagiosLastBackupAge(starts, now, defaultWarnAge, defaultWarnAge);
  }

  // ---------------------------------------------------------------------
  // diff: which two generations, and which names
  // ---------------------------------------------------------------------

  /** obnamlib.Error for a wrong argument count or the first generation;
      ValueError from list.index for a generation not in the list. */
  datatype DiffError = WrongArgumentCount | NotInGenerations | FirstGeneration

  /** list.index: the first position of x. */
  function IndexOf(xs: seq<string>, x: string): (r: Option<nat>)
    ensures r.Some? <==> x in xs
    ensures r.Some? ==> r.value < |xs| && xs[r.value] == x && x !in xs[..r.value]
  {
    if xs == [] then None
    else if xs[0] == x then Some(0)
    else match IndexOf(xs[1..], x)
      case None => None
      case Some(i) =>
        assert xs[..i + 1] == [xs[0]] + xs[1..][..i];
        Some(i + 1)
  }

  /** The (old, new) generation pair of diff. Two arguments are taken as
      they are; with one, the old generation is the one listed just before
      it. */
  function DiffGenerations(args: seq<string>, genids: seq<string>): (r: Result<(string, string), DiffError>)
    ensures |args| == 2 ==> r == Ok((args[0], args[1]))
    ensures |args| != 1 && |args| != 2 ==> r == Err(WrongArgumentCount)
    ensures |args| == 1 ==> (r == Err(NotInGenerations) <==> args[0] !in genids)
    ensures |args| == 1 ==> (r == Err(FirstGeneration) <==> genids != [] && genids[0] == args[0])
    ensures |args| == 1 && r.Ok? ==> (r.value.1 == args[0] &&
      exists i :: 0 < i < |genids| && genids[i] == args[0] && args[0] !in genids[..i] && r.value.0 == genids[i - 1])
  {
    if |args| != 1 && |args| != 2 then Err(WrongArgumentCount)
    else if |args| == 2 then Ok((args[0], args[1]))
    else
      var gen2 := args[0];
      match IndexOf(genids, gen2)
      case None => Err(NotInGenerations)
      case Some(index) =>
        if index == 0 then Err(FirstGeneration)
        else
          assert genids[0] in genids[..index];
          Ok((genids[index - 1], gen2))
  }

  /** With distinct generation ids, diff of one generation compares it with
      its immediate predecessor. */
  lemma DiffWithPredecessor(genids: seq<string>, i: nat)
    requires 0 < i < |genids|
    requires forall a, b :: 0 <= a < b < |genids| ==> genids[a] != genids[b]
    ensures DiffGenerations([genids[i]], genids) == Ok((genids[i - 1], genids[i]))
  {
    var r := DiffGenerations([genids[i]], genids);
    assert genids[i] in genids;
    assert genids[0] != genids[i];
    var k :| 0 < k < |genids| && genids[k] == genids[i] && r.value.0 == genids[k - 1];
  }

  /** list.remove of a name: drop its first occurrence. */
  function RemoveName(xs: seq<string>, x: string): (r: seq<string>)
    ensures x in xs ==> multiset(r) == multiset(xs) - multiset{x}
    ensures x !in xs ==> r == xs
  {
    if xs == [] then []
    else if xs[0] == x then
      assert xs == [xs[0]] + xs[1..];
      xs[1..]
    else
      assert xs == [xs[0]] + xs[1..];
      [xs[0]] + RemoveName(xs[1..], x)
  }

  /** One more name x of the new listing that is still in what is left of
      the old listing A - P: it moves from "left" to "common". */
  lemma CommonNameStep(A: multiset<string>, P: multiset<string>, x: string)
    requires x in A - P
    ensures (A - P) - multiset{x} == A - (P + multiset{x})
    ensures A * P + multiset{x} == A * (P + multiset{x})
    ensures P - A == (P + multiset{x}) - A
  {
    assert A[x] > P[x];
    assert forall y :: ((A - P) - multiset{x})[y] == (A - (P + multiset{x}))[y];
    assert forall y :: (A * P + multiset{x})[y] == (A * (P + multiset{x}))[y];
    assert forall y :: (P - A)[y] == ((P + multiset{x}) - A)[y];
  }

  /** One more name x that is not left of the old listing: it is added. */
  lemma AddedNameStep(A: multiset<string>, P: multiset<string>, x: string)
    requires x !in A - P
    ensures A - P == A - (P + multiset{x})
    ensures A * P == A * (P + multiset{x})
    ensures (P - A) + multiset{x} == (P + multiset{x}) - A
  {
    assert A[x] <= P[x];
    assert forall y :: (A - P)[y] == (A - (P + multiset{x}))[y];
    assert forall y :: (A * P)[y] == (A * (P + multiset{x}))[y];
    assert forall y :: ((P - A) + multiset{x})[y] == ((P + multiset{x}) - A)[y];
  }

  /** The name walk of show_diff: every name of the new directory listing is
      common (and struck off the old listing) or added; what is left of
      the old listing was removed. As multisets: added is new minus old,
      removed is old minus new, common is their intersection. */
  method ClassifyNames(names1: seq<string>, names2: seq<string>)
    returns (added: seq<string>, removed: seq<string>, common: seq<string>)
    ensures multiset(added) == multiset(names2) - multiset(names1)
    ensures multiset(removed) == multiset(names1) - multiset(names2)
    ensures multiset(common) == multiset(names1) * multiset(names2)
  {
    var set1 := names1;
    added, common := [], [];
    ghost var A := multiset(names1);
    ghost var seen: multiset<string> := multiset{};
    for i := 0 to |names2|
      invariant seen == multiset(names2[..i])
      invariant multiset(added) == seen - A
      invariant multiset(set1) == A - seen
      invariant multiset(common) == A * seen
    {
      var basename := names2[i];
      assert names2[..i + 1] == names2[..i] + [basename];
      if basename in set1 {
        CommonNameStep(A, seen, basename);
        set1 := RemoveName(set1, basename);
        common := common + [basename];
      } else {
        AddedNameStep(A, seen, basename);
        added := added + [basename];
      }
      seen := seen + multiset{basename};
    }
    assert names2[..|names2|] == names2;
    removed := set1;
  }
}
