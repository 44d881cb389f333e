/**
 * What `copy_files` promises: every image of the list is in the split's image
 * directory with its source contents, its label is in the split's label directory
 * exactly when the dataset has one, and no other path changes.
 */
module CopyProperties {
  import opened FileNames
  import opened FileSystem
  import opened SplitDatasets

  /** The file at p is the same in both maps (or absent from both). */
  predicate Agree(r: map<Path, Bytes>, files: map<Path, Bytes>, p: Path) {
    (p in r <==> p in files) && (p in files ==> r[p] == files[p])
  }

  /** p is a destination that copying `images` into `split` writes. */
  ghost predicate Written(files: map<Path, Bytes>, dataset: Path, out: Path, split: string, images: seq<string>, p: Path) {
    || (exists n :: n in images && p == Join(ImagesDir(out, split), n))
    || (exists n :: n in images && Join(dataset, LabelName(n)) in files && p == Join(LabelsDir(out, split), LabelName(n)))
  }

  /** Every image is copied, overwriting what was there, with the contents of its source. */
  lemma {:induction false} CopyAllPlacesImages(files: map<Path, Bytes>, dataset: Path, out: Path, split: string, images: seq<string>)
    requires SourceApart(dataset, out, split)
    requires forall n :: n in images ==> Join(dataset, n) in files
    ensures var r := CopyAll(files, dataset, out, split, images);
      forall n :: n in images ==>
        Join(ImagesDir(out, split), n) in r && r[Join(ImagesDir(out, split), n)] == files[Join(dataset, n)]
    decreases |images|
  {
    if images != [] {
      var init, last := images[..|images| - 1], images[|images| - 1];
      assert forall n :: n in init ==> n in images;
      CopyAllPlacesImages(files, dataset, out, split, init);
      assert images == init + [last];
      ImagesPlacedAfterLast(files, CopyAll(files, dataset, out, split, init), dataset, out, split, init, last);
    }
  }

  /** Induction step of CopyAllPlacesImages: copying one more image keeps the images placed so far. */
  lemma ImagesPlacedAfterLast(files: map<Path, Bytes>, before: map<Path, Bytes>, dataset: Path, out: Path,
                              split: string, init: seq<string>, last: string)
    requires SourceApart(dataset, out, split)
    requires Join(dataset, last) in files && forall n :: n in init ==> Join(dataset, n) in files
    requires forall m :: Join(dataset, m) in before <==> Join(dataset, m) in files
    requires forall m :: Join(dataset, m) in files ==> before[Join(dataset, m)] == files[Join(dataset, m)]
    requires forall n :: n in init ==>
      Join(ImagesDir(out, split), n) in before && before[Join(ImagesDir(out, split), n)] == files[Join(dataset, n)]
    ensures var r := CopyOne(before, dataset, out, split, last);
      forall n :: n in init + [last] ==>
        Join(ImagesDir(out, split), n) in r && r[Join(ImagesDir(out, split), n)] == files[Join(dataset, n)]
  {
    CopyOneEffect(before, dataset, out, split, last);
    ImagesApartFromLabels(out, split, split);
    forall n | n in init + [last] && n != last
      ensures Join(ImagesDir(out, split), n) != Join(ImagesDir(out, split), last)
    {
      if Join(ImagesDir(out, split), n) == Join(ImagesDir(out, split), last) {
        JoinInjective(ImagesDir(out, split), n, ImagesDir(out, split), last);
      }
    }
  }

  /** One iteration: the image is written, its label too when the dataset has it, and nothing else. */
  lemma CopyOneEffect(files: map<Path, Bytes>, dataset: Path, out: Path, split: string, image: string)
    requires SourceApart(dataset, out, split)
    requires Join(dataset, image) in files
    ensures var r := CopyOne(files, dataset, out, split, image);
      && Join(ImagesDir(out, split), image) in r
      && r[Join(ImagesDir(out, split), image)] == files[Join(dataset, image)]
      && (Join(dataset, LabelName(image)) in files ==>
            && Join(LabelsDir(out, split), LabelName(image)) in r
            && r[Join(LabelsDir(out, split), LabelName(image))] == files[Join(dataset, LabelName(image))])
      && (forall p :: p != Join(ImagesDir(out, split), image) &&
            (Join(dataset, LabelName(image)) in files ==> p != Join(LabelsDir(out, split), LabelName(image)))
            ==> Agree(r, files, p))
  {
    ImagesApartFromLabels(out, split, split);
    OutputOutsideSource(dataset, out, split);
  }

  /** When the dataset holds the label of n, r holds it in the split's label directory. */
  predicate LabelPlaced(r: map<Path, Bytes>, files: map<Path, Bytes>, dataset: Path, out: Path, split: string, n: string) {
    Join(dataset, LabelName(n)) in files ==>
      && Join(LabelsDir(out, split), LabelName(n)) in r
      && r[Join(LabelsDir(out, split), LabelName(n))] == files[Join(dataset, LabelName(n))]
  }

  /** The label of every image is copied when the dataset holds it. */
  lemma {:induction false} CopyAllPlacesLabels(files: map<Path, Bytes>, dataset: Path, out: Path, split: string, images: seq<string>)
    requires SourceApart(dataset, out, split)
    requires forall n :: n in images ==> Join(dataset, n) in files
    ensures var r := CopyAll(files, dataset, out, split, images);
      forall n :: n in images ==> LabelPlaced(r, files, dataset, out, split, n)
    decreases |images|
  {
    if images != [] {
      var init, last := images[..|images| - 1], images[|images| - 1];
      assert forall n :: n in init ==> n in images;
      CopyAllPlacesLabels(files, dataset, out, split, init);
      assert images == init + [last];
      LabelsPlacedAfterLast(files, CopyAll(files, dataset, out, split, init), dataset, out, split, init, last);
    }
  }

  /** Induction step of CopyAllPlacesLabels: copying one more image keeps the labels placed so far. */
  lemma LabelsPlacedAfterLast(files: map<Path, Bytes>, before: map<Path, Bytes>, dataset: Path, out: Path,
                              split: string, init: seq<string>, last: string)
    requires SourceApart(dataset, out, split)
    requires Join(dataset, last) in files
    requires forall m :: Join(dataset, m) in before <==> Join(dataset, m) in files
    requires forall m :: Join(dataset, m) in files ==> before[Join(dataset, m)] == files[Join(dataset, m)]
    requires forall n :: n in init ==> LabelPlaced(before, files, dataset, out, split, n)
    ensures var r := CopyOne(before, dataset, out, split, last);
      forall n :: n in init + [last] ==> LabelPlaced(r, files, dataset, out, split, n)
  {
    forall n | n in init + [last]
      ensures LabelPlaced(CopyOne(before, dataset, out, split, last), files, dataset, out, split, n)
    {
      LabelSurvivesLastCopy(files, before, dataset, out, split, last, n);
    }
  }

  /** Induction step of CopyAllPlacesLabels, for one image n. */
  lemma LabelSurvivesLastCopy(files: map<Path, Bytes>, before: map<Path, Bytes>, dataset: Path, out: Path,
                              split: string, last: string, n: string)
    requires SourceApart(dataset, out, split)
    requires Join(dataset, last) in files
    requires forall m :: Join(dataset, m) in before <==> Join(dataset, m) in files
    requires forall m :: Join(dataset, m) in files ==> before[Join(dataset, m)] == files[Join(dataset, m)]
    requires n == last || LabelPlaced(before, files, dataset, out, split, n)
    ensures LabelPlaced(CopyOne(before, dataset, out, split, last), files, dataset, out, split, n)
  {
    if Join(dataset, LabelName(n)) in files {
      CopyOneEffect(before, dataset, out, split, last);
      var p := Join(LabelsDir(out, split), LabelName(n));
      if LabelName(n) != LabelName(last) {
        ImagesApartFromLabels(out, split, split);
        if p == Join(LabelsDir(out, split), LabelName(last)) {
          JoinInjective(LabelsDir(out, split), LabelName(n), LabelsDir(out, split), LabelName(last));
        }
      }
    }
  }

  /** Nothing but the written destinations changes. */
  lemma {:induction false} CopyAllWritesNothingElse(files: map<Path, Bytes>, dataset: Path, out: Path, split: string, images: seq<string>, p: Path)
    requires SourceApart(dataset, out, split)
    requires forall n :: n in images ==> Join(dataset, n) in files
    requires !Written(files, dataset, out, split, images, p)
    ensures Agree(CopyAll(files, dataset, out, split, images), files, p)
    decreases |images|
  {
    if images != [] {
      var init, last := images[..|images| - 1], images[|images| - 1];
      assert !Written(files, dataset, out, split, init, p) by {
        forall n | n in init ensures n in images {}
      }
      CopyAllWritesNothingElse(files, dataset, out, split, init, p);
      assert p != Join(ImagesDir(out, split), last);
      assert Join(dataset, LabelName(last)) in files ==> p != Join(LabelsDir(out, split), LabelName(last));
    }
  }

  /** A missing label is skipped silently: the label directory gets nothing for it. */
  lemma MissingLabelSkipped(files: map<Path, Bytes>, dataset: Path, out: Path, split: string, images: seq<string>, image: string)
    requires SourceApart(dataset, out, split)
    requires forall n :: n in images ==> Join(dataset, n) in files
    requires Join(dataset, LabelName(image)) !in files
    ensures Agree(CopyAll(files, dataset, out, split, images), files, Join(LabelsDir(out, split), LabelName(image)))
  {
    var p := Join(LabelsDir(out, split), LabelName(image));
    ImagesApartFromLabels(out, split, split);
    forall n | n in images && Join(dataset, LabelName(n)) in files ensures p != Join(LabelsDir(out, split), LabelName(n)) {
      if p == Join(LabelsDir(out, split), LabelName(n)) {
        JoinInjective(LabelsDir(out, split), LabelName(image), LabelsDir(out, split), LabelName(n));
      }
    }
    CopyAllWritesNothingElse(files, dataset, out, split, images, p);
  }
}
