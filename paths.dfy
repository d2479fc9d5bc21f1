/**
 * File URLs and the string operations the Swift code applies to them:
 * lastPathComponent, pathExtension, deletingPathExtension, lowercased,
 * hasSuffix, starts(with:), contains and Int-to-String interpolation.
 */
module Paths {
  import opened Wrappers

  /** A file URL as its components: "/tmp/X/Payload" is ["tmp", "X", "Payload"]. */
  type Path = seq<string>

  /** URL.lastPathComponent ("/" for the root). */
  function LastComponent(p: Path): string
  {
    if p == [] then "/" else p[|p| - 1]
  }

  /** URL.path: the components behind a leading "/" each. */
  function Render(p: Path): string
  {
    if p == [] then "/" else RenderTail(p)
  }

  function RenderTail(p: Path): string
  {
    if p == [] then "" else "/" + p[0] + RenderTail(p[1..])
  }

  /** `p` is `dir` itself or lies somewhere below it. */
  predicate IsUnder(p: Path, dir: Path)
  {
    |dir| <= |p| && p[..|dir|] == dir
  }

  /** Character-wise lowercased() for the ASCII letters. */
  function LowerChar(c: char): char
  {
    if 'A' <= c <= 'Z' then (c as int + 32) as char else c
  }

  function Lower(s: string): (r: string)
    ensures |r| == |s|
  {
    if s == [] then [] else [LowerChar(s[0])] + Lower(s[1..])
  }

  /**
   * The text after the last '.' of `name`, or None when `name` has no dot.
   * Built from the end of the name, one character at a time.
   */
  function AfterLastDot(name: string): (r: Option<string>)
  {
    if name == [] then None
    else if name[|name| - 1] == '.' then Some("")
    else match AfterLastDot(name[..|name| - 1])
      case None => None
      case Some(t) => Some(t + [name[|name| - 1]])
  }

  /**
   * URL.pathExtension of a component: the text after its last '.', empty when
   * there is no dot, when the dot opens the name (a hidden file) or ends it.
   */
  function Extension(name: string): string
  {
    match AfterLastDot(name)
    case Some(t) => if t != "" && |t| + 1 < |name| then t else ""
    case None => ""
  }

  /** deletingPathExtension().lastPathComponent of a component. */
  function Stem(name: string): string
  {
    match AfterLastDot(name)
    case Some(t) => if t != "" && |t| + 1 < |name| then name[..|name| - |t| - 1] else name
    case None => name
  }

  /** AfterLastDot finds the last dot: the text it returns follows a '.' and holds none. */
  lemma {:induction false} AfterLastDotIsLastDot(name: string)
    ensures var r := AfterLastDot(name);
      && (r.Some? ==> |r.value| < |name| && name[|name| - |r.value| - 1] == '.'
                      && name[|name| - |r.value|..] == r.value
                      && forall j :: 0 <= j < |r.value| ==> r.value[j] != '.')
      && (r.None? ==> forall j :: 0 <= j < |name| ==> name[j] != '.')
    decreases |name|
  {
    if name != [] && name[|name| - 1] != '.' {
      var init := name[..|name| - 1];
      AfterLastDotIsLastDot(init);
      assert forall j :: 0 <= j < |init| ==> init[j] == name[j];
    }
  }

  /** Stem and Extension split a name at its last dot and nowhere else. */
  lemma StemExtensionSplit(name: string)
    ensures Extension(name) == "" ==> Stem(name) == name
    ensures Extension(name) != "" ==> Stem(name) + "." + Extension(name) == name
    ensures forall j :: 0 <= j < |Extension(name)| ==> Extension(name)[j] != '.'
  {
    AfterLastDotIsLastDot(name);
    match AfterLastDot(name)
    case Some(t) =>
      if t != "" && |t| + 1 < |name| {
        var k := |name| - |t| - 1;
        assert name == name[..k] + [name[k]] + name[k + 1..];
      }
    case None =>
  }

  /** A name whose only dot opens a dot-free, non-empty suffix has exactly that suffix as extension. */
  lemma {:induction false} ExtensionOfJoin(stem: string, ext: string)
    requires stem != [] && ext != []
    requires forall j :: 0 <= j < |ext| ==> ext[j] != '.'
    ensures Extension(stem + "." + ext) == ext
    ensures Stem(stem + "." + ext) == stem
  {
    var s := stem + "." + ext;
    AfterLastDotOfSuffix(stem + ".", ext);
    assert s[..|stem|] == stem;
  }

  lemma {:induction false} AfterLastDotOfSuffix(prefix: string, ext: string)
    requires prefix != [] && prefix[|prefix| - 1] == '.'
    requires forall j :: 0 <= j < |ext| ==> ext[j] != '.'
    ensures AfterLastDot(prefix + ext) == Some(ext)
    decreases |ext|
  {
    if ext == [] {
      assert prefix + ext == prefix;
    } else {
      var s := prefix + ext;
      assert s[|s| - 1] == ext[|ext| - 1];
      assert s[..|s| - 1] == prefix + ext[..|ext| - 1];
      AfterLastDotOfSuffix(prefix, ext[..|ext| - 1]);
      assert ext == ext[..|ext| - 1] + [ext[|ext| - 1]];
    }
  }

  lemma {:induction false} LowerAppend(a: string, b: string)
    ensures Lower(a + b) == Lower(a) + Lower(b)
    decreases |a|
  {
    if a != [] {
      LowerAppend(a[1..], b);
      assert (a + b)[1..] == a[1..] + b;
    } else {
      assert a + b == b;
    }
  }

  /** lowercased(): every character is lowercased where it stands. */
  lemma {:induction false} LowerAt(s: string)
    ensures forall i :: 0 <= i < |s| ==> Lower(s)[i] == LowerChar(s[i])
    decreases |s|
  {
    if s != [] {
      LowerAt(s[1..]);
    }
  }

  /** Lowercasing keeps every dot where it is and makes no new one. */
  lemma {:induction false} LowerAfterLastDot(name: string)
    ensures AfterLastDot(Lower(name)) ==
              match AfterLastDot(name)
              case Some(t) => Some(Lower(t))
              case None => None
    decreases |name|
  {
    if name != [] {
      var n := |name| - 1;
      var init := name[..n];
      assert name == init + [name[n]];
      LowerAppend(init, [name[n]]);
      assert Lower([name[n]]) == [LowerChar(name[n])];
      var low := Lower(name);
      assert low[..n] == Lower(init);
      LowerAfterLastDot(init);
      match AfterLastDot(init)
      case Some(t) =>
        LowerAppend(t, [name[n]]);
      case None =>
    }
  }

  /**
   * Comparing the lowercased extension, as the Swift code does, is comparing
   * the extension of the lowercased name, as the predicates below do.
   */
  lemma LowerExtension(name: string)
    ensures Lower(Extension(name)) == Extension(Lower(name))
  {
    LowerAfterLastDot(name);
    assert Lower("") == "";
  }

  /** pathExtension.lowercased() == "png" */
  predicate IsPng(name: string)
  {
    Extension(Lower(name)) == "png"
  }

  /** pathExtension.lowercased() == "dylib" */
  predicate IsDylib(name: string)
  {
    Extension(Lower(name)) == "dylib"
  }

  /** pathExtension.lowercased() == "deb" */
  predicate IsDeb(name: string)
  {
    Extension(Lower(name)) == "deb"
  }

  /**
   * The extension tests look at the letters after the last dot, whatever
   * their case: a name `stem.ext` passes exactly when `ext` lowercases to
   * the wanted extension.
   */
  lemma ExtensionTestsIgnoreCase(stem: string, ext: string)
    requires stem != [] && ext != []
    requires forall j :: 0 <= j < |ext| ==> ext[j] != '.'
    ensures IsDylib(stem + "." + ext) <==> Lower(ext) == "dylib"
    ensures IsPng(stem + "." + ext) <==> Lower(ext) == "png"
    ensures IsDeb(stem + "." + ext) <==> Lower(ext) == "deb"
  {
    LowerAppend(stem + ".", ext);
    LowerAppend(stem, ".");
    assert Lower(".") == ".";
    var low := Lower(ext);
    LowerAt(ext);
    assert forall j :: 0 <= j < |low| ==> low[j] != '.' by {
      forall j | 0 <= j < |low|
        ensures low[j] != '.'
      {
        assert low[j] == LowerChar(ext[j]);
      }
    }
    ExtensionOfJoin(Lower(stem), low);
    assert Extension(Lower(stem + "." + ext)) == low;
  }

  /** So an upper-case extension still names a library. */
  lemma UpperCaseDylib(stem: string)
    requires stem != []
    ensures IsDylib(stem + ".DYLIB")
  {
    assert stem + ".DYLIB" == stem + "." + "DYLIB";
    ExtensionTestsIgnoreCase(stem, "DYLIB");
    LowerAt("DYLIB");
  }

  predicate HasPrefix(s: string, prefix: string)
  {
    |prefix| <= |s| && s[..|prefix|] == prefix
  }

  predicate HasSuffix(s: string, suffix: string)
  {
    |suffix| <= |s| && s[|s| - |suffix|..] == suffix
  }

  /** String.contains: `part` occurs in `s` at some position. */
  predicate Contains(s: string, part: string)
  {
    HasPrefix(s, part) || (s != [] && Contains(s[1..], part))
  }

  function DigitChar(d: nat): char
    requires d < 10
  {
    "0123456789"[d]
  }

  /** The decimal digits of `n`, most significant first. */
  function Digits(n: nat): string
  {
    if n < 10 then [DigitChar(n)] else Digits(n / 10) + [DigitChar(n % 10)]
  }

  /** String interpolation of an Int: the digits, behind '-' when negative. */
  function Decimal(n: int): string
  {
    if n < 0 then "-" + Digits(-n) else Digits(n)
  }

  lemma {:induction false} DigitsAreDigits(n: nat)
    ensures Digits(n) != []
    ensures forall j :: 0 <= j < |Digits(n)| ==> '0' <= Digits(n)[j] <= '9'
    decreases n
  {
    if n >= 10 {
      DigitsAreDigits(n / 10);
    }
  }
}
