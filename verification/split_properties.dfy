/**
 * End-to-end properties of split_dataset: the splits partition the image names,
 * their sizes follow the floor formulas, each image lands in its own split only,
 * labels follow their images, and missing labels never create anything.
 */
module SplitProperties {
  import opened Wrappers
  import opened FileNames
  import opened Ratios
  import opened Partitioning
  import opened Shuffling
  import opened FileSystem
  import opened SplitDatasets
  import opened CopyProperties

  /**
   * With non-negative ratios the three splits hold every image name of the listing,
   * each as often as it is listed; a listing without repetitions gives pairwise
   * disjoint splits.
   */
  lemma PlanCoversImages(listing: seq<string>, draws: seq<nat>, train: real, val: real)
    requires 0.0 <= train && 0.0 <= val
    ensures var p := Plan(listing, draws, train, val);
      multiset(p.train) + multiset(p.val) + multiset(p.test) == multiset(FilterImages(listing))
    ensures var p := Plan(listing, draws, train, val);
      Distinct(listing) ==>
        && (forall x :: x in p.train ==> x !in p.val && x !in p.test)
        && (forall x :: x in p.val ==> x !in p.test)
  {
    var images := FilterImages(listing);
    var shuffled := Shuffled(images, |images|, draws);
    var trainCount, valCount := Count(|shuffled|, train), Count(|shuffled|, val);
    SplitsCoverList(shuffled, trainCount, valCount);
    if Distinct(listing) {
      assert Distinct(shuffled) by {
        forall x ensures multiset(shuffled)[x] <= 1 {
          assert multiset(listing)[x] <= 1;
        }
      }
      SplitsDisjoint(shuffled, trainCount, valCount);
    }
  }

  /**
   * With non-negative ratios summing to at most one, train and val hold exactly
   * `Count` images, floor(total * ratio), and test holds the rest.
   */
  lemma PlanSizes(listing: seq<string>, draws: seq<nat>, train: real, val: real)
    requires 0.0 <= train && 0.0 <= val && train + val <= 1.0
    ensures var p := Plan(listing, draws, train, val);
      var total := |FilterImages(listing)|;
      && |p.train| == Count(total, train)
      && |p.val| == Count(total, val)
      && |p.test| == total - |p.train| - |p.val|
  {
    var images := FilterImages(listing);
    var shuffled := Shuffled(images, |images|, draws);
    var total := |shuffled|;
    var trainCount, valCount := Count(total, train), Count(total, val);
    assert Plan(listing, draws, train, val) == SplitList(shuffled, trainCount, valCount);
    CountsFit(total, train, val);
    SliceSizes(shuffled, trainCount, valCount);
  }

  /**
   * A negative val ratio passes the check when the test ratio is omitted, and then the
   * slices no longer add up: on ten images, train 0.8 and val -0.5 give 8 train and
   * 7 test images, five of them in both.
   */
  lemma NegativeValRatioOverlaps(s: seq<string>)
    requires |s| == 10
    ensures CheckRatios(0.8, -0.5, None).Success?
    ensures var p := SplitList(s, Count(10, 0.8), Count(10, -0.5));
      |p.train| == 8 && |p.val| == 0 && |p.test| == 7 && p.train[3..] == p.test[..5]
  {
    NegativeValRatioCounts();
    var p := SplitList(s, 8, -5);
    assert p.train == s[..8];
    assert p.val == Slice(s, 8, 3) == [];
    assert p.test == Slice(s, 3, 10) == s[3..];
  }

  /** The counts behind NegativeValRatioOverlaps: int() of -5.0 is -5. */
  lemma NegativeValRatioCounts()
    ensures Count(10, 0.8) == 8 && Count(10, -0.5) == -5
  {
    assert 10.0 * 0.8 == 8.0 && 10.0 * -0.5 == -5.0;
  }

  /** Two different splits have different image and label directories. */
  lemma SplitDirsDiffer(out: Path, s1: string, s2: string)
    requires s1 != s2
    ensures ImagesDir(out, s1) != ImagesDir(out, s2) && LabelsDir(out, s1) != LabelsDir(out, s2)
  {
    assert ImagesDir(out, s1)[|out|] == s1 && ImagesDir(out, s2)[|out|] == s2;
    assert LabelsDir(out, s1)[|out|] == s1 && LabelsDir(out, s2)[|out|] == s2;
  }

  /**
   * Copying a list into split `into` leaves the image path of `n` under split `dir`
   * alone, unless it is the same split and n is in the list.
   */
  lemma ImagePathKept(files: map<Path, Bytes>, dataset: Path, out: Path, into: string, images: seq<string>, dir: string, n: string)
    requires SourceApart(dataset, out, into)
    requires forall m :: m in images ==> Join(dataset, m) in files
    requires into != dir || n !in images
    ensures Agree(CopyAll(files, dataset, out, into, images), files, Join(ImagesDir(out, dir), n))
  {
    var p := Join(ImagesDir(out, dir), n);
    ImagesApartFromLabels(out, dir, into);
    if into != dir {
      SplitDirsDiffer(out, into, dir);
    }
    forall m | m in images ensures p != Join(ImagesDir(out, into), m) {
      if p == Join(ImagesDir(out, into), m) {
        JoinInjective(ImagesDir(out, dir), n, ImagesDir(out, into), m);
      }
    }
    CopyAllWritesNothingElse(files, dataset, out, into, images, p);
  }

  /** Copying into split `into` leaves every label path of another split alone. */
  lemma LabelPathKept(files: map<Path, Bytes>, dataset: Path, out: Path, into: string, images: seq<string>, dir: string, name: string)
    requires SourceApart(dataset, out, into)
    requires forall m :: m in images ==> Join(dataset, m) in files
    requires into != dir
    ensures Agree(CopyAll(files, dataset, out, into, images), files, Join(LabelsDir(out, dir), name))
  {
    var p := Join(LabelsDir(out, dir), name);
    ImagesApartFromLabels(out, into, dir);
    SplitDirsDiffer(out, into, dir);
    forall m | m in images ensures p != Join(LabelsDir(out, into), LabelName(m)) {
      if p == Join(LabelsDir(out, into), LabelName(m)) {
        JoinInjective(LabelsDir(out, dir), name, LabelsDir(out, into), LabelName(m));
      }
    }
    CopyAllWritesNothingElse(files, dataset, out, into, images, p);
  }

  /** The files of the dataset directory named by the partition. */
  ghost predicate FromSource(p: Partition, dataset: Path, files: map<Path, Bytes>) {
    forall n :: n in p.train || n in p.val || n in p.test ==> Join(dataset, n) in files
  }

  /**
   * The three phases of CopyPartition meet the preconditions of CopyAll: the dataset
   * directory is apart from every split's directories, and each phase still finds
   * the dataset's files, unchanged, where the previous one left them.
   */
  lemma PhasesReady(files: map<Path, Bytes>, dataset: Path, out: Path, p: Partition)
    requires dataset !in OutputDirs(out) && FromSource(p, dataset, files)
    ensures SourceApart(dataset, out, "train") && SourceApart(dataset, out, "val") && SourceApart(dataset, out, "test")
    ensures forall m :: m in p.train ==> Join(dataset, m) in files
    ensures var f1 := CopyAll(files, dataset, out, "train", p.train);
      && (forall m :: Join(dataset, m) in f1 <==> Join(dataset, m) in files)
      && (forall m :: Join(dataset, m) in files ==> f1[Join(dataset, m)] == files[Join(dataset, m)])
      && (forall m :: m in p.val ==> Join(dataset, m) in f1)
    ensures var f2 := CopyAll(CopyAll(files, dataset, out, "train", p.train), dataset, out, "val", p.val);
      && (forall m :: Join(dataset, m) in f2 <==> Join(dataset, m) in files)
      && (forall m :: Join(dataset, m) in files ==> f2[Join(dataset, m)] == files[Join(dataset, m)])
      && (forall m :: m in p.test ==> Join(dataset, m) in f2)
    ensures CopyPartition(files, dataset, out, p) ==
      CopyAll(CopyAll(CopyAll(files, dataset, out, "train", p.train), dataset, out, "val", p.val), dataset, out, "test", p.test)
  {
  }

  /** One phase seen from the image path of n in `split`: written when n is copied there, kept otherwise. */
  lemma ImagePhase(f: map<Path, Bytes>, dataset: Path, out: Path, into: string, images: seq<string>, split: string, n: string)
    requires SourceApart(dataset, out, into)
    requires forall m :: m in images ==> Join(dataset, m) in f
    ensures var r := CopyAll(f, dataset, out, into, images);
      if into == split && n in images then
        Join(ImagesDir(out, split), n) in r && r[Join(ImagesDir(out, split), n)] == f[Join(dataset, n)]
      else
        Agree(r, f, Join(ImagesDir(out, split), n))
  {
    if into == split && n in images {
      CopyAllPlacesImages(f, dataset, out, into, images);
    } else {
      ImagePathKept(f, dataset, out, into, images, split, n);
    }
  }

  /** One phase seen from the label path of n in `split`: written when n is copied there and has a label. */
  lemma LabelPhase(f: map<Path, Bytes>, dataset: Path, out: Path, into: string, images: seq<string>, split: string, n: string)
    requires SourceApart(dataset, out, into)
    requires forall m :: m in images ==> Join(dataset, m) in f
    ensures var r := CopyAll(f, dataset, out, into, images);
      into == split && n in images ==> LabelPlaced(r, f, dataset, out, split, n)
    ensures var r := CopyAll(f, dataset, out, into, images);
      into != split || Join(dataset, LabelName(n)) !in f ==> Agree(r, f, Join(LabelsDir(out, split), LabelName(n)))
  {
    if into == split && n in images {
      CopyAllPlacesLabels(f, dataset, out, into, images);
      if Join(dataset, LabelName(n)) !in f {
        MissingLabelSkipped(f, dataset, out, into, images, n);
      }
    } else if into != split {
      LabelPathKept(f, dataset, out, into, images, split, LabelName(n));
    } else if Join(dataset, LabelName(n)) !in f {
      MissingLabelSkipped(f, dataset, out, into, images, n);
    }
  }

  /**
   * An image of one split is in that split's image directory with its source
   * contents, and the image directories of the other two splits are left as they were.
   */
  lemma ImageLandsInItsSplitOnly(files: map<Path, Bytes>, dataset: Path, out: Path, p: Partition, split: string, n: string)
    requires dataset !in OutputDirs(out) && FromSource(p, dataset, files)
    requires split in Splits && n in p.Files(split)
    requires forall other :: other in Splits && other != split ==> n !in p.Files(other)
    ensures var r := CopyPartition(files, dataset, out, p);
      && Join(ImagesDir(out, split), n) in r
      && r[Join(ImagesDir(out, split), n)] == files[Join(dataset, n)]
      && forall other :: other in Splits && other != split ==> Agree(r, files, Join(ImagesDir(out, other), n))
  {
    PhasesReady(files, dataset, out, p);
    var f1 := CopyAll(files, dataset, out, "train", p.train);
    var f2 := CopyAll(f1, dataset, out, "val", p.val);
    forall dir | dir in Splits
      ensures var r := CopyPartition(files, dataset, out, p);
        dir == split ==> Join(ImagesDir(out, split), n) in r && r[Join(ImagesDir(out, split), n)] == files[Join(dataset, n)]
      ensures dir != split ==> Agree(CopyPartition(files, dataset, out, p), files, Join(ImagesDir(out, dir), n))
    {
      ImagePhase(files, dataset, out, "train", p.train, dir, n);
      ImagePhase(f1, dataset, out, "val", p.val, dir, n);
      ImagePhase(f2, dataset, out, "test", p.test, dir, n);
    }
  }

  /**
   * The label of an image that has one ends up in the label directory of the
   * image's split, with the source label's contents.
   */
  lemma LabelFollowsImage(files: map<Path, Bytes>, dataset: Path, out: Path, p: Partition, split: string, n: string)
    requires dataset !in OutputDirs(out) && FromSource(p, dataset, files)
    requires split in Splits && n in p.Files(split)
    requires Join(dataset, LabelName(n)) in files
    ensures var r := CopyPartition(files, dataset, out, p);
      && Join(LabelsDir(out, split), LabelName(n)) in r
      && r[Join(LabelsDir(out, split), LabelName(n))] == files[Join(dataset, LabelName(n))]
  {
    PhasesReady(files, dataset, out, p);
    var f1 := CopyAll(files, dataset, out, "train", p.train);
    var f2 := CopyAll(f1, dataset, out, "val", p.val);
    var dst, v := Join(LabelsDir(out, split), LabelName(n)), files[Join(dataset, LabelName(n))];
    if split == "train" {
      LabelPhase(files, dataset, out, "train", p.train, split, n);
      assert dst in f1 && f1[dst] == v;
      LabelPhase(f1, dataset, out, "val", p.val, split, n);
      assert dst in f2 && f2[dst] == v;
      LabelPhase(f2, dataset, out, "test", p.test, split, n);
    } else if split == "val" {
      LabelPhase(f1, dataset, out, "val", p.val, split, n);
      assert dst in f2 && f2[dst] == v;
      LabelPhase(f2, dataset, out, "test", p.test, split, n);
    } else {
      LabelPhase(f2, dataset, out, "test", p.test, split, n);
    }
  }

  /** An image without a label is no error, and no label directory gains a file for it. */
  lemma MissingLabelCopiedNowhere(files: map<Path, Bytes>, dataset: Path, out: Path, p: Partition, n: string)
    requires dataset !in OutputDirs(out) && FromSource(p, dataset, files)
    requires Join(dataset, LabelName(n)) !in files
    ensures var r := CopyPartition(files, dataset, out, p);
      forall split :: split in Splits ==> Agree(r, files, Join(LabelsDir(out, split), LabelName(n)))
  {
    PhasesReady(files, dataset, out, p);
    var f1 := CopyAll(files, dataset, out, "train", p.train);
    var f2 := CopyAll(f1, dataset, out, "val", p.val);
    forall split | split in Splits
      ensures Agree(CopyPartition(files, dataset, out, p), files, Join(LabelsDir(out, split), LabelName(n)))
    {
      LabelPhase(files, dataset, out, "train", p.train, split, n);
      LabelPhase(f1, dataset, out, "val", p.val, split, n);
      LabelPhase(f2, dataset, out, "test", p.test, split, n);
    }
  }
}
