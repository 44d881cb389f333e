/**
 * File-name logic of split_dataset: which directory entries count as images,
 * and how the label file name is derived from an image name.
 */
module FileNames {

  /** Python's `str.endswith` for a single suffix. */
  predicate EndsWith(s: string, suffix: string) {
    |suffix| <= |s| && s[|s| - |suffix|..] == suffix
  }

  /** The extension filter: the name ends in .jpg, .png or .jpeg, case-sensitively. */
  predicate IsImageName(name: string) {
    EndsWith(name, ".jpg") || EndsWith(name, ".png") || EndsWith(name, ".jpeg")
  }

  /**
   * The list comprehension over the directory listing: keeps the image names,
   * each as often as it is listed, and nothing else.
   */
  function FilterImages(names: seq<string>): (images: seq<string>)
    ensures forall n :: multiset(images)[n] == if IsImageName(n) then multiset(names)[n] else 0
    ensures forall n :: n in images <==> n in names && IsImageName(n)
    ensures |images| <= |names|
  {
    if names == [] then []
    else
      var rest := FilterImages(names[1..]);
      assert names == [names[0]] + names[1..];
      if IsImageName(names[0]) then [names[0]] + rest else rest
  }

  /** Index of the last occurrence of `c` in `s`, or -1 when `c` does not occur. */
  function RFind(s: string, c: char): (k: int)
    ensures -1 <= k < |s|
    ensures k >= 0 ==> s[k] == c
    ensures forall i :: k < i < |s| ==> s[i] != c
  {
    if s == [] then -1
    else if s[|s| - 1] == c then |s| - 1
    else RFind(s[..|s| - 1], c)
  }

  /**
   * The part of a name kept by a right split at the last dot: everything before
   * that dot, or the whole
   * name when it has no dot.
   */
  function Stem(name: string): (stem: string)
    ensures stem <= name
    ensures '.' in name <==> |stem| < |name|
    ensures |stem| < |name| ==> name[|stem|] == '.' && '.' !in name[|stem| + 1..]
  {
    var k := RFind(name, '.');
    if k < 0 then name else name[..k]
  }

  /** The label file that belongs to an image: its stem followed by `.txt`. */
  function LabelName(image: string): (labelName: string)
    ensures EndsWith(labelName, ".txt")
    ensures !IsImageName(labelName)
  {
    var l := Stem(image) + ".txt";
    assert l[|l| - 1] == 't' && l[|l| - 3] == 't';
    l
  }

  /**
   * Only the last extension is replaced: for any base name (dots allowed) and
   * any extension without a dot, the label of `base.ext` is `base.txt`.
   */
  lemma {:induction false} LabelReplacesLastExtension(base: string, ext: string)
    requires '.' !in ext
    ensures LabelName(base + "." + ext) == base + ".txt"
  {
    var name := base + "." + ext;
    assert name[|base|] == '.';
    assert name[..|base|] == base;
  }

  /** A name without any dot keeps its whole name as stem. */
  lemma LabelOfDotlessName(name: string)
    requires '.' !in name
    ensures LabelName(name) == name + ".txt"
  {
  }

  /** A name with two dots loses only its last extension. */
  lemma LabelOfDottedName()
    ensures LabelName("a.b.jpg") == "a.b.txt"
  {
    assert "a.b.jpg" == "a.b" + "." + "jpg";
    LabelReplacesLastExtension("a.b", "jpg");
  }

  /** A label file is never picked up as an image. */
  lemma LabelsAreNotImages(names: seq<string>, image: string)
    ensures LabelName(image) !in FilterImages(names)
  {
  }
}
