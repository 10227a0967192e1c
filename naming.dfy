/** Decimal rendering and zero padding (`toString`), and the names the
    recorder derives from them: the per-player directory, the smallest
    free session directory, and the output file stem and suffixes. */
module Naming {
  import opened Common

  /** The digit character for 0 <= d < 10. */
  function DigitChar(d: nat): (c: char)
    requires d < 10
    ensures '0' <= c <= '9'
  {
    (('0' as int) + d) as char
  }

  predicate IsDigits(s: string) {
    forall i :: 0 <= i < |s| ==> '0' <= s[i] <= '9'
  }

  /** `std::to_string` of a natural number: shortest decimal form. */
  function Digits(n: nat): (s: string)
    ensures |s| >= 1 && IsDigits(s)
    ensures s[0] == '0' <==> n == 0
    decreases n
  {
    if n < 10 then [DigitChar(n)] else Digits(n / 10) + [DigitChar(n % 10)]
  }

  /** `std::to_string` of an `int`: a minus sign for negative numbers. */
  function DecimalString(n: int): string {
    if n < 0 then "-" + Digits(-n) else Digits(n)
  }

  /** The value a string of decimal digits denotes (most significant first). */
  function Value(s: string): nat
    requires IsDigits(s)
  {
    if s == [] then 0 else Value(s[..|s| - 1]) * 10 + (s[|s| - 1] as int - '0' as int)
  }

  function Zeros(k: nat): (z: string)
    ensures |z| == k && forall i :: 0 <= i < k ==> z[i] == '0'
  {
    seq(k, _ => '0')
  }

  /** What `toString(number, length)` returns: the decimal form of `number`
      with '0' prepended until it is at least `length` long. */
  function Padded(number: int, length: nat): string {
    Pad(DecimalString(number), length)
  }

  /** `s` with '0' prepended until it is at least `length` long. */
  function Pad(s: string, length: nat): string {
    if |s| < length then Zeros(length - |s|) + s else s
  }

  /** toString (source/KinectRecord.cpp and its copy in source/AzureKinect.cpp):
      insert '0' at the front while the text is shorter than `length`. */
  method ToString(number: int, length: nat) returns (num: string)
    ensures num == Padded(number, length)
  {
    num := DecimalString(number);
    ghost var s := num;
    while |num| < length
      invariant |num| >= |s|
      invariant num == Zeros(|num| - |s|) + s
      invariant |s| < length ==> |num| <= length
      invariant |s| >= length ==> num == s
      decreases length - |num|
    {
      num := ['0'] + num;
    }
  }

  // ---------------------------------------------------------------------
  // Properties of toString

  lemma {:induction false} DigitsValue(n: nat)
    ensures Value(Digits(n)) == n
    decreases n
  {
    if n >= 10 {
      var d := Digits(n / 10);
      assert (d + [DigitChar(n % 10)])[..|d|] == d;
      DigitsValue(n / 10);
    }
  }

  lemma {:induction false} DigitsLength(n: nat, k: nat, bound: nat)
    requires n < bound && bound == Pow10(k) && k >= 1
    ensures |Digits(n)| <= k
    decreases k
  {
    if n >= 10 {
      assert Pow10(1) == 10;
      DigitsLength(n / 10, k - 1, Pow10(k - 1));
    }
  }

  function Pow10(k: nat): nat {
    if k == 0 then 1 else 10 * Pow10(k - 1)
  }

  /** Leading zeros do not change the value of a digit string. */
  lemma {:induction false} ZerosValue(k: nat, s: string)
    requires IsDigits(s)
    ensures IsDigits(Zeros(k) + s) && Value(Zeros(k) + s) == Value(s)
    decreases |s|, k
  {
    var z := Zeros(k) + s;
    if s == [] {
      assert z == Zeros(k);
      if k > 0 {
        assert z[..k - 1] == Zeros(k - 1) + [];
        ZerosValue(k - 1, []);
      }
    } else {
      assert z[..|z| - 1] == Zeros(k) + s[..|s| - 1];
      ZerosValue(k, s[..|s| - 1]);
    }
  }

  /** toString pads and never truncates: the result is at least `length`
      long, ends with the full decimal form, and is '0's before it. */
  lemma PaddedShape(number: int, length: nat)
    ensures var s := DecimalString(number);
      var r := Padded(number, length);
      |r| == (if |s| < length then length else |s|) &&
      r[|r| - |s|..] == s &&
      forall i :: 0 <= i < |r| - |s| ==> r[i] == '0'
  {
  }

  /** For a non-negative number the padded text is all digits and denotes
      the number itself, so distinct numbers get distinct texts. */
  lemma PaddedValue(n: nat, length: nat)
    ensures IsDigits(Padded(n, length)) && Value(Padded(n, length)) == n
  {
    DigitsValue(n);
    PadValue(Digits(n), length);
  }

  /** Padding a digit string keeps it a digit string of the same value. */
  lemma PadValue(s: string, length: nat)
    requires IsDigits(s)
    ensures IsDigits(Pad(s, length)) && Value(Pad(s, length)) == Value(s)
  {
    if |s| < length {
      ZerosValue(length - |s|, s);
    }
  }

  /** A player id accepted by the window's validator (1..999) renders as
      exactly three digits. */
  lemma PidIsThreeDigits(pid: int)
    requires 1 <= pid <= 999
    ensures |Padded(pid, 3)| == 3 && IsDigits(Padded(pid, 3))
    ensures Value(Padded(pid, 3)) == pid
  {
    DigitsLength(pid, 3, 1000);
    PaddedValue(pid, 3);
  }

  // ---------------------------------------------------------------------
  // Output directory and file names

  /** "PID" followed by the three-digit player id. */
  function PidString(pid: int): string { "PID" + Padded(pid, 3) }

  /** "./PID<pid>/", the directory that holds all sessions of one player. */
  function BaseDir(pid: int): string { "./" + PidString(pid) + "/" }

  /** "./PID<pid>/<scanID>", a candidate session directory. */
  function ScanDir(pid: int, scanID: int): string { BaseDir(pid) + Padded(scanID, 3) }

  /** `scanID` is the smallest positive id whose directory does not exist. */
  ghost predicate SmallestFree(pid: int, existing: set<string>, scanID: int) {
    scanID >= 1 && ScanDir(pid, scanID) !in existing &&
    forall k :: 1 <= k < scanID ==> ScanDir(pid, k) in existing
  }

  /** Different session ids give different directories. */
  lemma ScanDirDistinct(pid: int, a: nat, b: nat)
    requires a != b
    ensures ScanDir(pid, a) != ScanDir(pid, b)
  {
    var n := |BaseDir(pid)|;
    assert ScanDir(pid, a)[n..] == Padded(a, 3);
    assert ScanDir(pid, b)[n..] == Padded(b, 3);
    PaddedValue(a, 3);
    PaddedValue(b, 3);
  }

  /** The directories of ids 1 to n - 1. */
  ghost function Dirs(pid: int, n: int): set<string>
    decreases n
  {
    if n <= 1 then {} else Dirs(pid, n - 1) + {ScanDir(pid, n - 1)}
  }

  /** Ids 1 to n - 1 have their directories among `Dirs(pid, n)`. */
  lemma {:induction false} DirsHave(pid: int, n: int)
    ensures forall k :: 1 <= k < n ==> ScanDir(pid, k) in Dirs(pid, n)
    decreases n
  {
    if n > 1 {
      DirsHave(pid, n - 1);
    }
  }

  /** No id from n on has its directory among `Dirs(pid, n)`. */
  lemma {:induction false} DirsExclude(pid: int, n: int, j: nat)
    requires j >= n
    ensures ScanDir(pid, j) !in Dirs(pid, n)
    decreases n
  {
    if n > 1 {
      ScanDirDistinct(pid, j, n - 1);
      DirsExclude(pid, n - 1, j);
    }
  }

  /** `Dirs(pid, n)` has one directory per id. */
  lemma {:induction false} DirsCount(pid: int, n: int)
    requires n >= 1
    ensures |Dirs(pid, n)| == n - 1
    decreases n
  {
    if n > 1 {
      DirsCount(pid, n - 1);
      DirsExclude(pid, n - 1, n - 1);
    }
  }

  /** The directory scan of initOutput: try "./PID<pid>/001", "002", ...
      and take the first one that does not exist. `existing` stands for the
      directories present on disk (a failed existence query counts as absent). */
  method FindSessionDir(pid: int, existing: set<string>) returns (scanID: int, dir: string)
    ensures SmallestFree(pid, existing, scanID) && dir == ScanDir(pid, scanID)
  {
    var pidString := ToString(pid, 3);
    var baseDir := "./" + "PID" + pidString + "/";
    assert baseDir == BaseDir(pid);
    scanID := 1;
    while true
      invariant scanID >= 1 && Dirs(pid, scanID) <= existing && scanID - 1 <= |existing|
      decreases |existing| - (scanID - 1)
    {
      var idString := ToString(scanID, 3);
      var scanDir := baseDir + idString;
      if scanDir !in existing {
        dir := scanDir;
        DirsHave(pid, scanID);
        return;
      }
      assert scanDir == ScanDir(pid, scanID);
      DirsCount(pid, scanID + 1);
      SubsetCard(Dirs(pid, scanID + 1), existing);
      scanID := scanID + 1;
    }
  }

  /** A later scan, once the chosen directory has been created, picks a
      strictly larger id and so a different directory: repeated recordings
      for one player never reuse a directory. */
  lemma SessionsIncrease(pid: int, before: set<string>, first: int, after: set<string>, second: int)
    requires SmallestFree(pid, before, first) && SmallestFree(pid, after, second)
    requires before + {ScanDir(pid, first)} <= after
    ensures first < second && ScanDir(pid, first) != ScanDir(pid, second)
  {
  }

  /** The file stem "<dir>/PID<pid><date>"; `date` is the "%Y-%m-%d" text
      of the local clock, opaque here. */
  function Stem(dir: string, pid: int, date: string): string {
    dir + "/" + PidString(pid) + date
  }

  /** The report of a failed directory creation; the system's error text
      is represented by its code. */
  function DirectoryMessage(dir: string, code: int): Message {
    Message("Failed creating output directory (" + dir + ") with ", Some(code))
  }

  const PoseSuffix := ".csv"
  const DepthSuffix := "_depth.mp4"
  const ColourSuffix := "_colour.mp4"
  const IrSuffix := "_ir.mp4"
  const CaptureVideoSuffix := ".mkv"

  /** The four outputs of one session share the stem and are pairwise
      distinct, and they all lie inside the session directory. */
  lemma OutputNamesDistinct(dir: string, pid: int, date: string)
    ensures var stem := Stem(dir, pid, date);
      var names := [stem + PoseSuffix, stem + DepthSuffix, stem + ColourSuffix, stem + IrSuffix];
      (forall i :: 0 <= i < 4 ==> names[i][..|stem|] == stem && names[i][..|dir| + 1] == dir + "/") &&
      (forall i, j :: 0 <= i < j < 4 ==> names[i] != names[j])
  {
    var stem := Stem(dir, pid, date);
    var names := [stem + PoseSuffix, stem + DepthSuffix, stem + ColourSuffix, stem + IrSuffix];
    var n := |stem|;
    assert names[0][n] == '.' && names[1][n] == '_' && names[2][n] == '_' && names[3][n] == '_';
    assert names[1][n + 1] == 'd' && names[2][n + 1] == 'c' && names[3][n + 1] == 'i';
    forall i | 0 <= i < 4 ensures names[i][..|dir| + 1] == dir + "/" {
      assert names[i][..|dir| + 1] == stem[..|dir| + 1];
    }
  }
}
