/**
 * `split_dataset` itself: the ratio check, the image filter, the shuffle, the
 * three slices, the creation of the output directories and the copy loop of its
 * inner `copy_files`.
 */
module SplitDatasets {
  import opened Wrappers
  import opened FileNames
  import opened Ratios
  import opened Partitioning
  import opened Shuffling
  import opened FileSystem

  datatype SplitError = BadRatios(reason: RatioError) | DatasetNotFound(dir: Path)

  /** The split names, in the order the directory loop and the copies visit them. */
  const Splits: seq<string> := ["train", "val", "test"]

  /** The image directory of a split under the output root. */
  function ImagesDir(out: Path, split: string): Path {
    out + [split, "images"]
  }

  /** The label directory of a split under the output root. */
  function LabelsDir(out: Path, split: string): Path {
    out + [split, "labels"]
  }

  /** The six directories the partitioner writes into. */
  function OutputDirs(out: Path): set<Path> {
    {ImagesDir(out, "train"), LabelsDir(out, "train"),
     ImagesDir(out, "val"), LabelsDir(out, "val"),
     ImagesDir(out, "test"), LabelsDir(out, "test")}
  }

  /** The dataset directory is not one of the two directories a split is copied into. */
  predicate SourceApart(dataset: Path, out: Path, split: string) {
    dataset != ImagesDir(out, split) && dataset != LabelsDir(out, split)
  }

  /** A destination of a copy never names a file of the dataset directory. */
  lemma OutputOutsideSource(dataset: Path, out: Path, split: string)
    requires SourceApart(dataset, out, split)
    ensures forall n, m :: Join(ImagesDir(out, split), n) != Join(dataset, m)
    ensures forall n, m :: Join(LabelsDir(out, split), n) != Join(dataset, m)
  {
    forall n, m
      ensures Join(ImagesDir(out, split), n) != Join(dataset, m)
      ensures Join(LabelsDir(out, split), n) != Join(dataset, m)
    {
      if Join(ImagesDir(out, split), n) == Join(dataset, m) {
        JoinInjective(ImagesDir(out, split), n, dataset, m);
      }
      if Join(LabelsDir(out, split), n) == Join(dataset, m) {
        JoinInjective(LabelsDir(out, split), n, dataset, m);
      }
    }
  }

  /** An image destination is never a label destination, whatever the two splits. */
  lemma ImagesApartFromLabels(out: Path, s1: string, s2: string)
    ensures forall n, m :: Join(ImagesDir(out, s1), n) != Join(LabelsDir(out, s2), m)
  {
    assert ImagesDir(out, s1) != LabelsDir(out, s2) by {
      assert ImagesDir(out, s1)[|out| + 1] == "images" && LabelsDir(out, s2)[|out| + 1] == "labels";
      assert "images"[0] != "labels"[0];
    }
    forall n, m ensures Join(ImagesDir(out, s1), n) != Join(LabelsDir(out, s2), m) {
      if Join(ImagesDir(out, s1), n) == Join(LabelsDir(out, s2), m) {
        JoinInjective(ImagesDir(out, s1), n, LabelsDir(out, s2), m);
      }
    }
  }

  /** One iteration of `copy_files`: the image, then its label if the source has one. */
  function CopyOne(files: map<Path, Bytes>, dataset: Path, out: Path, split: string, image: string): (r: map<Path, Bytes>)
    requires SourceApart(dataset, out, split)
    requires Join(dataset, image) in files
    ensures forall m :: Join(dataset, m) in r <==> Join(dataset, m) in files
    ensures forall m :: Join(dataset, m) in files ==> r[Join(dataset, m)] == files[Join(dataset, m)]
  {
    OutputOutsideSource(dataset, out, split);
    var afterImage := files[Join(ImagesDir(out, split), image) := files[Join(dataset, image)]];
    var labelFile := LabelName(image);
    if Join(dataset, labelFile) in afterImage then
      afterImage[Join(LabelsDir(out, split), labelFile) := afterImage[Join(dataset, labelFile)]]
    else
      afterImage
  }

  /**
   * The files after copying the images of one split; the dataset directory keeps
   * exactly the files it had, with their contents.
   */
  function CopyAll(files: map<Path, Bytes>, dataset: Path, out: Path, split: string, images: seq<string>): (r: map<Path, Bytes>)
    requires SourceApart(dataset, out, split)
    requires forall n :: n in images ==> Join(dataset, n) in files
    ensures forall m :: Join(dataset, m) in r <==> Join(dataset, m) in files
    ensures forall m :: Join(dataset, m) in files ==> r[Join(dataset, m)] == files[Join(dataset, m)]
    decreases |images|
  {
    if images == [] then files
    else
      var before := CopyAll(files, dataset, out, split, images[..|images| - 1]);
      CopyOne(before, dataset, out, split, images[|images| - 1])
  }

  /** `copy_files`: the loop over one split's list. */
  method CopyFiles(disk: Disk, dataset: Path, out: Path, images: seq<string>, split: string)
    requires SourceApart(dataset, out, split)
    requires ImagesDir(out, split) in disk.dirs && LabelsDir(out, split) in disk.dirs
    requires forall n :: n in images ==> Join(dataset, n) in disk.files
    modifies disk
    ensures disk.files == CopyAll(old(disk.files), dataset, out, split, images)
    ensures disk.dirs == old(disk.dirs)
  {
    var i := 0;
    while i < |images|
      invariant 0 <= i <= |images|
      invariant disk.dirs == old(disk.dirs)
      invariant disk.files == CopyAll(old(disk.files), dataset, out, split, images[..i])
    {
      var image := images[i];
      assert images[..i + 1][..i] == images[..i] && images[..i + 1][i] == image;
      OutputOutsideSource(dataset, out, split);
      disk.Copy(Join(dataset, image), Join(ImagesDir(out, split), image));
      var labelFile := LabelName(image);
      if disk.Exists(Join(dataset, labelFile)) {
        disk.Copy(Join(dataset, labelFile), Join(LabelsDir(out, split), labelFile));
      }
      i := i + 1;
    }
    assert images[..|images|] == images;
  }

  /** The directories the loop over `splits` has created, parents included. */
  function SplitDirs(out: Path, splits: seq<string>): set<Path>
    decreases |splits|
  {
    if splits == [] then {}
    else
      var split := splits[|splits| - 1];
      SplitDirs(out, splits[..|splits| - 1]) + Ancestry(ImagesDir(out, split)) + Ancestry(LabelsDir(out, split))
  }

  /**
   * The directory loop creates nothing but the output root and its parents, the
   * split directories and their `images` and `labels` subdirectories.
   */
  lemma {:induction false} SplitDirsStayUnderOut(out: Path, splits: seq<string>)
    ensures forall d :: d in SplitDirs(out, splits) ==>
      d != [] && (d <= out || exists s :: s in splits && UnderSplit(d, out, s))
    decreases |splits|
  {
    if splits != [] {
      var split := splits[|splits| - 1];
      var init := splits[..|splits| - 1];
      SplitDirsStayUnderOut(out, init);
      assert forall s :: s in init ==> s in splits;
      AncestryOfSplitDir(out, split, "images");
      AncestryOfSplitDir(out, split, "labels");
    }
  }

  /** d is the directory of split s under out, or one of its two subdirectories. */
  predicate UnderSplit(d: Path, out: Path, s: string) {
    d == out + [s] || d == ImagesDir(out, s) || d == LabelsDir(out, s)
  }

  /** The directories above a split's subdirectory are the split's directory and those above out. */
  lemma AncestryOfSplitDir(out: Path, split: string, sub: string)
    requires sub == "images" || sub == "labels"
    ensures var target := out + [split, sub];
      forall d :: d in Ancestry(target) ==> d <= out || UnderSplit(d, out, split)
  {
    var target := out + [split, sub];
    assert target == if sub == "images" then ImagesDir(out, split) else LabelsDir(out, split);
    forall d | d in Ancestry(target)
      ensures d <= out || UnderSplit(d, out, split)
    {
      if |d| == |out| + 1 {
        assert d == target[..|out| + 1] == out + [split];
      } else if |d| <= |out| {
        assert d == target[..|d|] == out[..|d|];
      } else {
        assert d == target;
      }
    }
  }

  /** Lines 35-39: `images` and `labels` directories for every split, existing ones kept. */
  method CreateSplitDirs(disk: Disk, out: Path)
    modifies disk
    ensures disk.dirs == old(disk.dirs) + SplitDirs(out, Splits)
    ensures disk.files == old(disk.files)
  {
    var i := 0;
    while i < |Splits|
      invariant 0 <= i <= |Splits|
      invariant disk.dirs == old(disk.dirs) + SplitDirs(out, Splits[..i])
      invariant disk.files == old(disk.files)
    {
      var split := Splits[i];
      assert Splits[..i + 1][..i] == Splits[..i] && Splits[..i + 1][i] == split;
      disk.MakeDirs(ImagesDir(out, split));
      disk.MakeDirs(LabelsDir(out, split));
      i := i + 1;
    }
    assert Splits[..|Splits|] == Splits;
  }

  /** Every split in the list gets both of its directories. */
  lemma {:induction false} SplitDirsContainBoth(out: Path, splits: seq<string>)
    ensures forall split :: split in splits ==>
      ImagesDir(out, split) in SplitDirs(out, splits) && LabelsDir(out, split) in SplitDirs(out, splits)
    decreases |splits|
  {
    if splits != [] {
      var init := splits[..|splits| - 1];
      SplitDirsContainBoth(out, init);
      forall split | split in splits
        ensures ImagesDir(out, split) in SplitDirs(out, splits) && LabelsDir(out, split) in SplitDirs(out, splits)
      {
        if split != splits[|splits| - 1] {
          assert split in init;
        }
      }
    }
  }

  /** A directory listing: every file of the directory, each named once. */
  ghost predicate IsListing(listing: seq<string>, dir: Path, files: map<Path, Bytes>) {
    Distinct(listing) && forall n :: n in listing <==> Join(dir, n) in files
  }

  /** Lines 23-32: the filtered, shuffled and sliced image list. */
  function Plan(listing: seq<string>, draws: seq<nat>, train: real, val: real): (p: Partition)
    ensures forall n :: n in p.train || n in p.val || n in p.test ==> n in listing && IsImageName(n)
  {
    var images := FilterImages(listing);
    var shuffled := Shuffled(images, |images|, draws);
    assert forall n :: n in shuffled ==> n in images by {
      forall n | n in shuffled ensures n in images {
        assert multiset(shuffled)[n] > 0;
      }
    }
    SplitList(shuffled, Count(|shuffled|, train), Count(|shuffled|, val))
  }

  /** Lines 61-63: the three calls of `copy_files`, train first. */
  function CopyPartition(files: map<Path, Bytes>, dataset: Path, out: Path, p: Partition): (r: map<Path, Bytes>)
    requires dataset !in OutputDirs(out)
    requires forall n :: n in p.train || n in p.val || n in p.test ==> Join(dataset, n) in files
    ensures forall m :: Join(dataset, m) in r <==> Join(dataset, m) in files
    ensures forall m :: Join(dataset, m) in files ==> r[Join(dataset, m)] == files[Join(dataset, m)]
  {
    var afterTrain := CopyAll(files, dataset, out, "train", p.train);
    var afterVal := CopyAll(afterTrain, dataset, out, "val", p.val);
    CopyAll(afterVal, dataset, out, "test", p.test)
  }

  /**
   * `split_dataset`: the ratio check and the dataset lookup fail before anything is
   * written; otherwise the planned partition is returned after the directories are
   * made and every split copied.
   */
  method SplitDataset(disk: Disk, datasetDir: Path, outputDir: Path, trainRatio: real, valRatio: real,
                      testRatio: Option<real>, listing: seq<string>, draws: seq<nat>)
    returns (r: Result<Partition, SplitError>)
    requires IsListing(listing, datasetDir, disk.files)
    requires datasetDir !in OutputDirs(outputDir)
    modifies disk
    ensures CheckRatios(trainRatio, valRatio, testRatio).Failure? ==> r == Failure(BadRatios(RatiosMustSumToOne))
    ensures CheckRatios(trainRatio, valRatio, testRatio).Success? && datasetDir !in old(disk.dirs) ==>
      r == Failure(DatasetNotFound(datasetDir))
    ensures CheckRatios(trainRatio, valRatio, testRatio).Success? && datasetDir in old(disk.dirs) ==> r.Success?
    ensures r.Failure? ==> disk.files == old(disk.files) && disk.dirs == old(disk.dirs)
    ensures r.Success? ==>
      && r.value == Plan(listing, draws, trainRatio, valRatio)
      && disk.files == CopyPartition(old(disk.files), datasetDir, outputDir, r.value)
      && disk.dirs == old(disk.dirs) + SplitDirs(outputDir, Splits)
  {
    var checked := CheckRatios(trainRatio, valRatio, testRatio);
    if checked.Failure? {
      return Failure(BadRatios(checked.error));
    }
    if datasetDir !in disk.dirs {
      return Failure(DatasetNotFound(datasetDir));
    }
    var images := FilterImages(listing);
    var a := new string[|images|](i requires 0 <= i < |images| => images[i]);
    assert a[..] == images;
    Shuffle(a, draws);
    var shuffled := a[..];
    var total := a.Length;
    var trainCount := Count(total, trainRatio);
    var valCount := Count(total, valRatio);
    var p := SplitList(shuffled, trainCount, valCount);
    assert p == Plan(listing, draws, trainRatio, valRatio);
    CreateSplitDirs(disk, outputDir);
    SplitDirsContainBoth(outputDir, Splits);
    CopyFiles(disk, datasetDir, outputDir, p.train, "train");
    CopyFiles(disk, datasetDir, outputDir, p.val, "val");
    CopyFiles(disk, datasetDir, outputDir, p.test, "test");
    return Success(p);
  }
}
