/**
  How the handler names what it writes: the width ladder, the key of each
  derivative, and the content types it declares.
 */
module Naming {
  import opened PosixPath
  import opened Decimal

  /** The fixed ladder of derivative widths, in the order they are produced. */
  const WIDTHS: seq<nat> := [200, 400, 800, 1600, 3200]

  /** Content type of every derivative. */
  const WEBP_TYPE: string := "image/webp"

  /** Content type of the re-encoded original: "image/" and the detected format. */
  function ImageType(format: string): string {
    "image/" + format
  }

  /** `basename(key, extname(key))`: the last segment of the key without its extension. */
  function Stem(key: string): (s: string)
    ensures NoSeparator(s) && |s| <= |key|
  {
    StemAndExtension(key);
    BaseName(key, ExtName(key))
  }

  /** The text a derivative of width `width` appends to the stem. */
  function WidthSuffix(width: nat): string {
    "-" + DecimalString(width) + ".webp"
  }

  /**
    The key of the derivative of width `width`. The directory part of the
    input key does not survive, and the key is never the input key itself.
   */
  function DerivativeKey(key: string, width: nat): (k: string)
    ensures NoSeparator(k)
    ensures k != key
  {
    var k := Stem(key) + WidthSuffix(width);
    DerivativeKeyIsNotInputKey(key, width);
    k
  }

  lemma DerivativeKeyIsNotInputKey(key: string, width: nat)
    ensures NoSeparator(Stem(key) + WidthSuffix(width))
    ensures Stem(key) + WidthSuffix(width) != key
  {
    var stem, ext, suffix := Stem(key), ExtName(key), WidthSuffix(width);
    StemAndExtension(key);
    ExtNameShape(key);
    WidthSuffixShape(width);
    NoSeparatorConcat(stem, suffix);
    if NoSeparator(key) {
      LastSegmentOfPlainName(key);
      StemThenDashIsNotKey(key, stem, ext, suffix);
    }
  }

  /** The width suffix starts with '-' and has no separator. */
  lemma WidthSuffixShape(width: nat)
    ensures WidthSuffix(width) != [] && WidthSuffix(width)[0] == '-'
    ensures NoSeparator(WidthSuffix(width))
  {
    NoSeparatorConcat("-", DecimalString(width));
    NoSeparatorConcat("-" + DecimalString(width), ".webp");
  }

  /** A key split as stem and extension differs from the stem followed by a '-'. */
  lemma StemThenDashIsNotKey(key: string, stem: string, ext: string, suffix: string)
    requires stem + ext == key
    requires ext == [] || ext[0] == '.'
    requires suffix != [] && suffix[0] == '-'
    ensures stem + suffix != key
  {
    if ext == [] {
      assert |stem + suffix| > |key|;
    } else {
      assert (stem + suffix)[|stem|] != (stem + ext)[|stem|];
    }
  }

  /** Within one record, derivatives of different widths get different keys. */
  lemma DerivativeKeysDistinct(key: string, w1: nat, w2: nat)
    ensures DerivativeKey(key, w1) == DerivativeKey(key, w2) <==> w1 == w2
  {
    if DerivativeKey(key, w1) == DerivativeKey(key, w2) {
      var stem := Stem(key);
      var a, b := WidthSuffix(w1), WidthSuffix(w2);
      assert stem + a == stem + b;
      assert a == (stem + a)[|stem|..];
      assert b == (stem + b)[|stem|..];
      var d1, d2 := DecimalString(w1), DecimalString(w2);
      assert |d1| == |d2|;
      assert d1 == a[1..|a| - 5];
      assert d2 == b[1..|b| - 5];
      DecimalStringInjective(w1, w2);
    }
  }

  /**
    Two input keys yield the same derivative key for a width exactly when
    their stems agree, whatever their directories and extensions: such
    records overwrite each other's derivatives.
   */
  lemma DerivativeKeysCollide(key1: string, key2: string, width: nat)
    ensures DerivativeKey(key1, width) == DerivativeKey(key2, width) <==> Stem(key1) == Stem(key2)
  {
    var s1, s2, suffix := Stem(key1), Stem(key2), WidthSuffix(width);
    if s1 + suffix == s2 + suffix {
      assert s1 == (s1 + suffix)[..|s1|];
      assert s2 == (s2 + suffix)[..|s2|];
    }
  }

  /**
    For a key `dir/name.ext` the derivative key is `name-<width>.webp`:
    neither the directory nor the extension appears in it.
   */
  lemma DerivativeKeyOfFilePath(dir: string, name: string, ext: string, width: nat)
    requires name != [] && NoSeparator(name) && NoSeparator(ext)
    requires forall i :: 0 <= i < |ext| ==> ext[i] != '.'
    requires name + "." + ext != ".."
    ensures DerivativeKey(dir + [SEPARATOR] + name + "." + ext, width) == name + WidthSuffix(width)
  {
    StemOfFilePath(dir, name, ext);
  }

  /** For a key `name.ext` at the root the derivative key is `name-<width>.webp` as well. */
  lemma DerivativeKeyOfFileName(name: string, ext: string, width: nat)
    requires name != [] && NoSeparator(name) && NoSeparator(ext)
    requires forall i :: 0 <= i < |ext| ==> ext[i] != '.'
    requires name + "." + ext != ".."
    ensures DerivativeKey(name + "." + ext, width) == name + WidthSuffix(width)
  {
    StemOfFileName(name, ext);
  }
}

/** Worked examples of the naming rule on concrete keys. */
module NamingExamples {
  import opened PosixPath
  import opened Decimal
  import opened Naming

  lemma Suffix200()
    ensures WidthSuffix(200) == "-200.webp"
  {
    assert DecimalString(2) == "2";
    assert DecimalString(20) == "20";
  }

  /**
    The keys `a/cat.jpg` and `b/cat.png` both have derivative key
    `cat-<width>.webp`: records for them overwrite each other's derivatives.
   */
  lemma SharedStemExample(width: nat)
    ensures DerivativeKey("a/cat.jpg", width) == "cat" + WidthSuffix(width)
    ensures DerivativeKey("b/cat.png", width) == "cat" + WidthSuffix(width)
  {
    assert "a/cat.jpg" == "a" + [SEPARATOR] + "cat" + "." + "jpg";
    assert "b/cat.png" == "b" + [SEPARATOR] + "cat" + "." + "png";
    DerivativeKeyOfFilePath("a", "cat", "jpg", width);
    DerivativeKeyOfFilePath("b", "cat", "png", width);
  }

  /** A key at the root keeps its name: `cat.jpg` has derivative key `cat-200.webp` at width 200. */
  lemma RootKeyExample()
    ensures DerivativeKey("cat.jpg", 200) == "cat-200.webp"
  {
    assert "cat.jpg" == "cat" + "." + "jpg";
    DerivativeKeyOfFileName("cat", "jpg", 200);
    Suffix200();
  }
}
