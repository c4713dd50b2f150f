/** Archive file names: stem, dot, index, extension; and reading the index back from a name. */
module ArchiveNames {
  import opened Common
  import opened Words
  import opened Decimal
  import opened Digits

  const SIZE_MAX: nat := 0xffff_ffff_ffff_ffff

  /** The position of the last dot, or -1. */
  function LastDot(s: string): (k: int)
    ensures -1 <= k < |s|
  {
    if s == [] then -1 else if s[|s| - 1] == '.' then |s| - 1 else LastDot(s[..|s| - 1])
  }

  lemma LastDotIs(s: string)
    ensures LastDot(s) >= 0 ==> s[LastDot(s)] == '.'
    ensures forall i :: LastDot(s) < i < |s| ==> s[i] != '.'
  {
    if s != [] {
      LastDotIs(s[..|s| - 1]);
    }
  }

  /** The extension of a file name: from its last dot on, unless that dot leads the name. */
  function Extension(name: string): string {
    var k := LastDot(name);
    if name == "." || name == ".." || k < 1 then "" else name[k..]
  }

  function Stem(name: string): string {
    var k := LastDot(name);
    if name == "." || name == ".." || k < 1 then name else name[..k]
  }

  lemma NameSplits(name: string)
    ensures name == Stem(name) + Extension(name) && (name != "" ==> Stem(name) != "")
    ensures Extension(name) != "" ==> Extension(name)[0] == '.' && '.' !in Extension(name)[1..]
  {
    LastDotIs(name);
    if Extension(name) != "" {
      var k := LastDot(name);
      forall c | c in name[k..][1..] ensures c != '.' {
        var i :| 0 <= i < |name[k..][1..]| && name[k..][1..][i] == c;
        assert name[k..][1..][i] == name[k + 1 + i];
      }
    }
  }

  function ArchiveName(base: string, n: nat): string {
    Stem(base) + "." + Decimals(n) + Extension(base)
  }

  /** `name` is an archive of `base` with this text for its index. */
  ghost predicate IsArchive(base: string, name: string, digits: string) {
    name == Stem(base) + "." + digits + Extension(base)
  }

  /** The index a digit text stands for: none for 0, for the largest size or beyond. */
  function IndexValue(digits: string): Option<nat> {
    if digits != "" && AllDigits(digits) && 0 < Number(digits) < SIZE_MAX then Some(Number(digits)) else None
  }

  /** The text between the stem and the extension of an archive name, when the name has that shape. */
  function IndexText(base: string, name: string): Option<string> {
    var ext := Extension(base);
    if ext != "" && Extension(name) != ext then None
    else
      var inner := if ext == "" then name else Stem(name);
      if Stem(inner) != Stem(base) || |Extension(inner)| < 2 then None
      else Some(Extension(inner)[1..])
  }

  /** The digit loop; it guards against overflow, so a prefix beyond the largest size gives up early. */
  method ParseDigits(digits: string) returns (r: Option<nat>)
    requires digits != ""
    ensures r == IndexValue(digits)
  {
    var value: nat := 0;
    var i := 0;
    while i < |digits|
      invariant 0 <= i <= |digits|
      invariant AllDigits(digits[..i]) && Number(digits[..i]) == value <= SIZE_MAX
    {
      var c := digits[i];
      assert digits[..i + 1] == digits[..i] + [c];
      NumberSnoc(digits[..i], c);
      if c < '0' || c > '9' {
        assert !IsDigit(digits[i]);
        return None;
      }
      var digit := DigitValue(c);
      if value > (SIZE_MAX - digit) / 10 {
        if AllDigits(digits) {
          PrefixNumber(digits, i + 1);
        }
        return None;
      }
      value := value * 10 + digit;
      i := i + 1;
    }
    assert digits[..i] == digits;
    if value == 0 || value == SIZE_MAX {
      return None;
    }
    return Some(value);
  }

  /** Reads the archive index of a file name. */
  method ParseArchiveIndex(base: string, name: string) returns (r: Option<nat>)
    ensures r == ArchiveIndex(base, name)
  {
    var ext := Extension(base);
    if ext != "" && Extension(name) != ext {
      return None;
    }
    var inner := if ext == "" then name else Stem(name);
    if Stem(inner) != Stem(base) {
      return None;
    }
    var dotDigits := Extension(inner);
    NameSplits(inner);
    if |dotDigits| < 2 || dotDigits[0] != '.' {
      return None;
    }
    r := ParseDigits(dotDigits[1..]);
  }

  lemma PrefixNumber(s: string, i: nat)
    requires i <= |s| && AllDigits(s)
    ensures Number(s) >= Number(s[..i])
  {
    assert s == s[..i] + s[i..];
    NumberConcat(s[..i], s[i..]);
    NumberBound(s[..i]);
    NumberBound(s[i..]);
    AtLeast(Number(s[..i]), Pow(10, |s[i..]|));
  }

  lemma AtLeast(a: nat, p: nat)
    requires p > 0
    ensures a * p >= a
  {
  }

  function ArchiveIndex(base: string, name: string): Option<nat> {
    var text := IndexText(base, name);
    if text.None? then None else IndexValue(text.value)
  }

  lemma LastDotUnique(s: string, k: nat)
    requires k < |s| && s[k] == '.'
    requires forall i :: k < i < |s| ==> s[i] != '.'
    ensures LastDot(s) == k
  {
    LastDotIs(s);
    assert !(LastDot(s) < k);
  }

  /** Splitting a name off its last dot. */
  lemma SplitAtDot(front: string, text: string)
    requires front != "" && '.' !in text && front + "." + text != ".."
    ensures Stem(front + "." + text) == front
    ensures Extension(front + "." + text) == "." + text
  {
    var s := front + "." + text;
    var k := |front|;
    assert s[k] == '.';
    forall i | k < i < |s| ensures s[i] != '.' {
      assert s[i] == text[i - k - 1];
    }
    LastDotUnique(s, k);
    assert s[..k] == front && s[k..] == "." + text;
  }

  /** A name made of the base's stem and extension around a dot and dotless text gives that text back. */
  lemma TextOfArchive(base: string, digits: string)
    requires base != "" && digits != "" && '.' !in digits
    ensures IndexText(base, Stem(base) + "." + digits + Extension(base)) == Some(digits)
  {
    var ext := Extension(base);
    var inner := Stem(base) + "." + digits;
    NameSplits(base);
    SplitAtDot(Stem(base), digits);
    if ext == "" {
      assert inner + ext == inner;
    } else {
      SplitAtExtension(inner, ext);
    }
    assert ("." + digits)[1..] == digits;
  }

  lemma SplitAtExtension(inner: string, ext: string)
    requires |inner| > 1 && ext != "" && ext[0] == '.' && '.' !in ext[1..]
    ensures Stem(inner + ext) == inner && Extension(inner + ext) == ext
  {
    assert ext == "." + ext[1..];
    assert inner + ext == inner + "." + ext[1..];
    SplitAtDot(inner, ext[1..]);
  }

  lemma DigitsDotless(digits: string)
    requires AllDigits(digits)
    ensures '.' !in digits
  {
  }

  /** Archive names read back as their index. */
  lemma ArchiveRoundTrip(base: string, n: nat)
    requires base != "" && 0 < n < SIZE_MAX
    ensures ArchiveIndex(base, ArchiveName(base, n)) == Some(n)
  {
    DecimalsDenote(n);
    DigitsDotless(Decimals(n));
    TextOfArchive(base, Decimals(n));
  }

  /** Only names of the archive shape read as an index. */
  lemma ArchiveShape(base: string, name: string)
    requires ArchiveIndex(base, name).Some?
    ensures var digits := IndexText(base, name).value;
            IsArchive(base, name, digits) && AllDigits(digits) && Number(digits) == ArchiveIndex(base, name).value
  {
    TextShape(base, name);
  }

  lemma DotText(inner: string)
    requires Extension(inner) != ""
    ensures inner == Stem(inner) + "." + Extension(inner)[1..]
  {
    NameSplits(inner);
    var ext := Extension(inner);
    assert ext == "." + ext[1..];
    assert Stem(inner) + ("." + ext[1..]) == Stem(inner) + "." + ext[1..];
  }

  lemma TextShape(base: string, name: string)
    requires IndexText(base, name).Some?
    ensures IndexText(base, name).value != "" && IsArchive(base, name, IndexText(base, name).value)
  {
    var ext := Extension(base);
    if ext == "" {
      DotText(name);
      assert name + ext == name;
    } else {
      NameSplits(name);
      DotText(Stem(name));
    }
  }

  /** With a canonical index text the name is the archive name of its index: parsing and naming are inverse. */
  lemma CanonicalArchive(base: string, name: string)
    requires ArchiveIndex(base, name).Some? && IndexText(base, name).value[..1] != "0"
    ensures name == ArchiveName(base, ArchiveIndex(base, name).value)
  {
    ArchiveShape(base, name);
    var digits := IndexText(base, name).value;
    assert digits[..1] == [digits[0]];
    CanonicalDigits(digits);
  }

  /** The active file's own name is no archive name. */
  lemma BaseIsNoArchive(base: string)
    ensures ArchiveIndex(base, base).None?
  {
    if IndexText(base, base).Some? {
      TextShape(base, base);
      NameSplits(base);
      LongerName(Stem(base), IndexText(base, base).value, Extension(base));
      assert false;
    }
  }

  lemma LongerName(stem: string, digits: string, ext: string)
    ensures stem + "." + digits + ext != stem + ext
  {
    assert |stem + "." + digits + ext| > |stem + ext|;
  }

  /** How a sink names its files: the active file, the archive of each index, and the index read from a name. */
  datatype Naming = Naming(active: string, archive: nat -> string, index: string -> Option<nat>) {
    /** Archive names read back as their index, and the active file is no archive. */
    ghost predicate Lawful() {
      index(active) == None && forall n | 0 < n < SIZE_MAX :: index(archive(n)) == Some(n)
    }
  }

  function NamingOf(base: string): Naming {
    Naming(base, (n: nat) => ArchiveName(base, n), name => ArchiveIndex(base, name))
  }

  lemma NamingLawful(base: string)
    requires base != ""
    ensures NamingOf(base).Lawful()
  {
    BaseIsNoArchive(base);
    forall n | 0 < n < SIZE_MAX ensures ArchiveIndex(base, ArchiveName(base, n)) == Some(n) {
      ArchiveRoundTrip(base, n);
    }
  }
}
