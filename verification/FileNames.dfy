/** The names of rotated log files. */
module FileNames {
  import opened ParseInt

  /** SPDLOG_FOLDER_SEPS where folders are separated by slashes only. */
  const FOLDER_SEPS := "/"

  /** The last position of one of the given characters, or -1. */
  function LastOf(s: string, chars: string): (i: int)
    ensures -1 <= i < |s|
    ensures i >= 0 ==> s[i] in chars
    ensures forall j :: i < j < |s| ==> s[j] !in chars
  {
    if s == "" then -1
    else if s[|s| - 1] in chars then |s| - 1
    else LastOf(s[..|s| - 1], chars)
  }

  /**
   The dot of an extension: neither the first nor the last character, not right after a folder
   separator, and with no other dot and no separator after it.
   */
  ghost predicate StartsExtension(fname: string, i: int) {
    && 0 < i < |fname| - 1
    && fname[i] == '.' && fname[i - 1] !in FOLDER_SEPS
    && forall j :: i < j < |fname| ==> fname[j] != '.' && fname[j] !in FOLDER_SEPS
  }

  function SplitByExtension(fname: string): (r: (string, string))
    ensures r.0 + r.1 == fname
    ensures r.1 != "" <==> exists i :: StartsExtension(fname, i)
    ensures r.1 != "" ==> StartsExtension(fname, |r.0|)
  {
    var extIndex := LastOf(fname, ".");
    assert forall i :: StartsExtension(fname, i) ==> i == extIndex;
    if extIndex == -1 || extIndex == 0 || extIndex == |fname| - 1 then
      (fname, "")
    else
      var folderIndex := LastOf(fname, FOLDER_SEPS);
      if folderIndex != -1 && folderIndex >= extIndex - 1 then
        (fname, "")
      else
        assert StartsExtension(fname, extIndex);
        (fname[..extIndex], fname[extIndex..])
  }

  function Decimal(n: nat): string {
    var last := [('0' as int + n % 10) as char];
    if n < 10 then last else Decimal(n / 10) + last
  }

  function CalcFilename(filename: string, index: nat): string {
    if index == 0 then
      filename
    else
      var (basename, ext) := SplitByExtension(filename);
      basename + "." + Decimal(index) + ext
  }

  lemma {:induction false} DecimalValue(n: nat)
    ensures AllDigits(Decimal(n)) && Decimal(n) != "" && Value(Decimal(n)) == n
  {
    var last := [('0' as int + n % 10) as char];
    assert Digit(last[0]) == n % 10;
    if n < 10 {
      assert Decimal(n)[..0] == "";
    } else {
      DecimalValue(n / 10);
      var digits := Decimal(n);
      assert digits[..|digits| - 1] == Decimal(n / 10) && digits[|digits| - 1] == last[0];
    }
  }

  lemma {:induction false} DecimalLead(n: nat)
    ensures Decimal(n) != "" && (Decimal(n)[0] == '0' <==> n == 0)
  {
    if n >= 10 {
      DecimalLead(n / 10);
    }
  }

  /** A rotated name: the index, in decimal and without a leading zero, goes before the extension, or to the end. */
  lemma CalcFilenameIs(filename: string, index: nat) returns (digits: string)
    ensures AllDigits(digits) && digits != "" && Value(digits) == index && (digits[0] == '0' <==> index == 0)
    ensures index == 0 ==> CalcFilename(filename, index) == filename
    ensures index > 0 ==> forall i :: StartsExtension(filename, i) ==>
              CalcFilename(filename, index) == filename[..i] + "." + digits + filename[i..]
    ensures index > 0 && (forall i :: !StartsExtension(filename, i)) ==>
              CalcFilename(filename, index) == filename + "." + digits
  {
    digits := Decimal(index);
    DecimalValue(index);
    DecimalLead(index);
    var (basename, ext) := SplitByExtension(filename);
    forall i | StartsExtension(filename, i) ensures basename == filename[..i] && ext == filename[i..] {
      assert StartsExtension(filename, |basename|);
      assert i == |basename|;
      assert filename == basename + ext;
    }
    if ext == "" {
      assert basename + ext == basename && filename == basename;
    }
  }

  /** The example of the documentation. */
  lemma CalcFilenameExample()
    ensures CalcFilename("logs/mylog.txt", 3) == "logs/mylog.3.txt"
  {
    var name := "logs/mylog.txt";
    assert name[10] == '.' && StartsExtension(name, 10);
    assert Decimal(3) == "3";
    hide SplitByExtension, Decimal;
    var (basename, ext) := SplitByExtension(name);
    assert StartsExtension(name, |basename|) && |basename| == 10;
    assert name == basename + ext && basename == name[..10] == "logs/mylog" && ext == name[10..] == ".txt";
  }

  /** No two indices share a file. */
  lemma CalcFilenameInjective(filename: string, i: nat, j: nat)
    requires CalcFilename(filename, i) == CalcFilename(filename, j)
    ensures i == j
  {
    var (basename, ext) := SplitByExtension(filename);
    DecimalValue(i);
    DecimalValue(j);
    if i > 0 && j > 0 {
      MiddleEqual(basename + ".", Decimal(i), Decimal(j), ext);
    } else {
      assert |filename| == |basename| + |ext|;
    }
  }

  lemma MiddleEqual(prefix: string, a: string, b: string, suffix: string)
    requires prefix + a + suffix == prefix + b + suffix
    ensures a == b
  {
    assert a == (prefix + a + suffix)[|prefix|..|prefix| + |a|];
    assert b == (prefix + b + suffix)[|prefix|..|prefix| + |b|];
  }
}
