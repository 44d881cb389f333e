# split_dataset, modelled in Dafny

This project models the YOLO dataset partitioner `split_dataset` and its inner
`copy_files` (`ultralytics/utils/split_datasets.py`). The partitioner works in
this order:

1. It checks that the train, val and test ratios sum to one. An omitted test ratio
   is first set to the remainder.
2. It lists the dataset directory and keeps the `.jpg`, `.png` and `.jpeg` names.
3. It shuffles that list with `random.shuffle`.
4. It cuts the list into train, val and test slices of `int(total * ratio)` images.
   Test gets the rest.
5. It creates `<out>/<split>/images` and `<out>/<split>/labels` for every split.
6. It copies every image into its split. The label `<stem>.txt` is copied beside it
   when the dataset has one.

The modules follow that structure:

- `FileNames`: the image filter and the label name.
- `Ratios`: the ratio check and the truncated counts.
- `Partitioning`: Python slicing and the three slices.
- `Shuffling`: Fisher–Yates on an array, as `random.shuffle` does it.
- `FileSystem`: a `Disk` class with a file map and a directory set, plus
  `makedirs` and `copy`.
- `SplitDatasets`: the two source functions, as methods that modify a `Disk`.
- `CopyProperties` and `SplitProperties`: what the copy loop and the whole run
  guarantee.

A path is the list of its components, so `os.path.join` appends one component.
Three things the program gets from its environment are parameters of
`SplitDataset` instead:

- The random source is a stream `draws` of naturals. Each shuffle step takes the
  next draw modulo the number of positions still to fill.
  `ShuffleReachesEveryPermutation` shows that every permutation is the result of
  some stream.
- The directory listing is a parameter `listing`. It must name every file of the
  dataset directory exactly once.
- The ratios are exact reals.

## Model

| member | source | states |
|---|---|---|
| FileNames.FilterImages | ultralytics/utils/split_datasets.py:23 | the result keeps exactly the listed names that end in .jpg, .png or .jpeg, each as often as it is listed, and is no longer than the listing |
| FileNames.IsImageName | ultralytics/utils/split_datasets.py:23 | definition without a contract: a case-sensitive suffix test for .jpg, .png and .jpeg; what it admits is stated by FilterImages and LabelsAreNotImages |
| FileNames.RFind | ultralytics/utils/split_datasets.py:53 | the result is the index of the last occurrence of the character, or -1 when it does not occur |
| FileNames.Stem | ultralytics/utils/split_datasets.py:53 | the right split at the last dot keeps a prefix of the name; it is shorter exactly when the name has a dot, and then what it drops starts with a dot and holds no other dot |
| FileNames.LabelName | ultralytics/utils/split_datasets.py:53 | a label name ends in .txt and never passes the image filter |
| FileNames.LabelReplacesLastExtension | ultralytics/utils/split_datasets.py:53 | for any base name (dots allowed) and any extension without a dot, the label of base.ext is base.txt |
| FileNames.LabelOfDotlessName | ultralytics/utils/split_datasets.py:53 | a name without a dot gets .txt appended |
| FileNames.LabelOfDottedName | ultralytics/utils/split_datasets.py:53 | only the last extension is replaced: a.b.jpg has the label a.b.txt |
| FileNames.LabelsAreNotImages | ultralytics/utils/split_datasets.py:23 | no label name is ever among the filtered images |
| Ratios.CheckRatios | ultralytics/utils/split_datasets.py:16-20 | the check fails exactly when an explicit test ratio makes the sum differ from one; on success the three ratios sum to one, and an explicit test ratio is kept |
| Ratios.Trunc | ultralytics/utils/split_datasets.py:27-28 | int() truncates toward zero: for x >= 0 the result is the floor, for x < 0 it is the ceiling |
| Ratios.Count | ultralytics/utils/split_datasets.py:26-28 | for a non-negative ratio the count is the floor of total times ratio; for a ratio in [0, 1] it lies between 0 and the total |
| Ratios.CountsFit | ultralytics/utils/split_datasets.py:26-31 | for non-negative ratios summing to at most one, both counts are non-negative and together at most the total |
| Ratios.TestAbsorbsRounding | ultralytics/utils/split_datasets.py:16-32 | for checked ratios, the images left for test are at least total times the test ratio and fewer than that plus two |
| Ratios.DefaultRatiosOnFiveImages | ultralytics/utils/split_datasets.py:26-32 | with the default ratios 0.8 and 0.1, five images give 4 train, 0 val and 1 test |
| Partitioning.ClampIndex | ultralytics/utils/split_datasets.py:30-32 | a slice bound normalises into [0, n], and a bound already in range is kept |
| Partitioning.Slice | ultralytics/utils/split_datasets.py:30-32 | for in-range bounds the slice is the subsequence; every slice is no longer than the list and holds only its elements |
| Partitioning.SplitList | ultralytics/utils/split_datasets.py:30-32 | the three slices hold only elements of the list; for counts that fit, train is the first train-count elements, val the next val-count elements, and test the rest |
| Partitioning.SlicesConcatenateIff | ultralytics/utils/split_datasets.py:30-32 | train + val + test is the list exactly when the normalised end of train is not past the normalised end of val |
| Partitioning.SlicesConcatenate | ultralytics/utils/split_datasets.py:30-32 | with non-negative counts the three slices put back together give the list |
| Partitioning.SliceSizes | ultralytics/utils/split_datasets.py:30-32 | non-negative counts that fit give slices of exactly those sizes, and test gets the rest |
| Partitioning.SplitsCoverList | ultralytics/utils/split_datasets.py:30-32 | with non-negative counts the three slices hold every element with its multiplicity |
| Partitioning.SplitsDisjoint | ultralytics/utils/split_datasets.py:30-32 | on a list without repetitions, the three slices are pairwise disjoint |
| Shuffling.SwapAt | ultralytics/utils/split_datasets.py:24 | a swap exchanges the two positions, keeps every other position, and keeps the multiset |
| Shuffling.Shuffled | ultralytics/utils/split_datasets.py:24 | shuffling the first m positions keeps the length and the multiset, and leaves the positions from m on alone |
| Shuffling.Shuffle | ultralytics/utils/split_datasets.py:24 | the in-place Fisher–Yates loop leaves the array equal to Shuffled of its old contents, hence a permutation of them |
| Shuffling.ShuffleReachesEveryPermutation | ultralytics/utils/split_datasets.py:24 | every permutation of the list is the shuffle's result for some draw stream |
| FileSystem.Join | ultralytics/utils/split_datasets.py:48-49 | the joined path extends the directory by exactly the entry name |
| FileSystem.JoinInjective | ultralytics/utils/split_datasets.py:48-55 | two joined paths are equal only when directories and names are |
| FileSystem.Ancestry | ultralytics/utils/split_datasets.py:38-39 | the directories makedirs creates are exactly the nonempty prefixes of the path: the path and all its parents |
| FileSystem.Disk.MakeDirs | ultralytics/utils/split_datasets.py:38-39 | the path and all its parents are directories afterwards, existing ones are no error, and no file changes |
| FileSystem.Disk.Exists | ultralytics/utils/split_datasets.py:58 | definition without a contract: the path names a file on the disk; CopyOneEffect states the branch it selects |
| FileSystem.Disk.Copy | ultralytics/utils/split_datasets.py:50 | the destination holds the source's contents afterwards, overwriting what was there, and nothing else changes |
| SplitDatasets.ImagesDir | ultralytics/utils/split_datasets.py:36 | definition without a contract: `<out>/<split>/images`; SplitDirsDiffer and ImagesApartFromLabels state how the destinations relate |
| SplitDatasets.LabelsDir | ultralytics/utils/split_datasets.py:37 | definition without a contract: `<out>/<split>/labels`; SplitDirsDiffer and ImagesApartFromLabels state how the destinations relate |
| SplitDatasets.OutputOutsideSource | ultralytics/utils/split_datasets.py:48-55 | when the dataset is not a split's destination directory, no destination path names a dataset file |
| SplitDatasets.ImagesApartFromLabels | ultralytics/utils/split_datasets.py:36-37 | an image destination is never a label destination, for any two splits |
| SplitDatasets.CopyOne | ultralytics/utils/split_datasets.py:47-59 | one iteration of the copy loop keeps every dataset file and its contents |
| SplitDatasets.CopyAll | ultralytics/utils/split_datasets.py:46-59 | copying a whole list keeps every dataset file and its contents |
| SplitDatasets.CopyFiles | ultralytics/utils/split_datasets.py:42-59 | the copy loop leaves the disk's files equal to CopyAll of the old files, and the directories unchanged |
| SplitDatasets.SplitDirs | ultralytics/utils/split_datasets.py:35-39 | definition without a contract: the directories the loop over the split names creates; SplitDirsContainBoth and SplitDirsStayUnderOut state what it holds |
| SplitDatasets.CreateSplitDirs | ultralytics/utils/split_datasets.py:35-39 | the directory loop adds exactly the images and labels directories of every split, with their parents, and writes no file |
| SplitDatasets.SplitDirsStayUnderOut | ultralytics/utils/split_datasets.py:35-39 | the directory loop creates nothing but the output root and its parents, each split's directory, and its images and labels subdirectories |
| SplitDatasets.SplitDirsContainBoth | ultralytics/utils/split_datasets.py:35-39 | every split gets both its images and its labels directory |
| SplitDatasets.IsListing | ultralytics/utils/split_datasets.py:23 | definition without a contract: the listing names every file of the directory once, in any order |
| SplitDatasets.Plan | ultralytics/utils/split_datasets.py:23-32 | every name in a split is a listed image name |
| SplitDatasets.CopyPartition | ultralytics/utils/split_datasets.py:61-63 | the three copy passes keep every dataset file and its contents |
| SplitDatasets.SplitDataset | ultralytics/utils/split_datasets.py:6-63 | bad ratios fail before the dataset is looked at; a missing dataset directory fails next; a failure changes nothing; ratios that pass with an existing dataset directory always succeed; on success the result is the planned partition, the directories are created, and the files are those of the three copy passes |
| CopyProperties.CopyAllPlacesImages | ultralytics/utils/split_datasets.py:46-50 | after copy_files, every image of the list is in the split's images directory with its source contents |
| CopyProperties.ImagesPlacedAfterLast | ultralytics/utils/split_datasets.py:46-50 | copying one more image keeps every image copied so far in place, and adds the new one |
| CopyProperties.CopyOneEffect | ultralytics/utils/split_datasets.py:47-59 | one iteration writes the image, writes its label exactly when the dataset has it, and leaves every other path as it was |
| CopyProperties.CopyAllPlacesLabels | ultralytics/utils/split_datasets.py:52-59 | after copy_files, the label of every listed image that has one is in the split's labels directory with its source contents |
| CopyProperties.LabelsPlacedAfterLast | ultralytics/utils/split_datasets.py:52-59 | copying one more image keeps every label copied so far in place, and adds the new image's label |
| CopyProperties.LabelSurvivesLastCopy | ultralytics/utils/split_datasets.py:52-59 | a label already in place, or the label of the image being copied, is in place after the copy |
| CopyProperties.CopyAllWritesNothingElse | ultralytics/utils/split_datasets.py:46-59 | copy_files changes no path other than the image destinations and the label destinations of labels that exist |
| CopyProperties.MissingLabelSkipped | ultralytics/utils/split_datasets.py:57-59 | a label missing from the dataset is skipped without error, and its destination is left as it was |
| SplitProperties.PlanCoversImages | ultralytics/utils/split_datasets.py:23-32 | with non-negative ratios, the three splits hold exactly the listed images, each as often as listed; a listing without repeats gives pairwise disjoint splits |
| SplitProperties.PlanSizes | ultralytics/utils/split_datasets.py:26-32 | with non-negative ratios summing to at most one, train and val hold exactly their truncated counts and test holds the rest |
| SplitProperties.NegativeValRatioOverlaps | ultralytics/utils/split_datasets.py:16-32 | a negative val ratio passes the check; on ten images, train 0.8 and val -0.5 give 8 train and 7 test images, five of them in both |
| SplitProperties.SplitDirsDiffer | ultralytics/utils/split_datasets.py:36-37 | different splits have different images and labels directories |
| SplitProperties.ImagePathKept | ultralytics/utils/split_datasets.py:61-63 | copying one split leaves an image path of another split alone, and also one of its own split for an image it does not list |
| SplitProperties.LabelPathKept | ultralytics/utils/split_datasets.py:61-63 | copying one split leaves every label path of another split alone |
| SplitProperties.PhasesReady | ultralytics/utils/split_datasets.py:61-63 | every copy pass finds the dataset files, unchanged, that the next pass needs |
| SplitProperties.ImagePhase | ultralytics/utils/split_datasets.py:42-63 | one copy pass either places an image in its split or leaves that path alone |
| SplitProperties.LabelPhase | ultralytics/utils/split_datasets.py:52-63 | one copy pass either places an image's label in its split or leaves that path alone, also when the label is missing |
| SplitProperties.ImageLandsInItsSplitOnly | ultralytics/utils/split_datasets.py:42-63 | after the three passes, an image of one split is in that split's images directory with its source contents, and the other splits' image paths for it are unchanged |
| SplitProperties.LabelFollowsImage | ultralytics/utils/split_datasets.py:52-63 | after the three passes, the label of an image that has one is in the labels directory of the image's split, with its source contents |
| SplitProperties.MissingLabelCopiedNowhere | ultralytics/utils/split_datasets.py:57-63 | an image without a label causes no error, and no labels directory gains or changes a file for it |

## Left out

- The command-line entry point (lines 68-77) is not modelled. It only parses arguments, and it never passes a test ratio.
- The closing summary `print` (line 65) is not modelled. `SplitDataset` returns the partition instead, and the split sizes are stated by `PlanSizes`.
- Ratios are exact reals, not IEEE doubles. A sum such as 0.7 + 0.2 + 0.1 that misses 1.0 by rounding passes the check in the model. The same goes for a product that rounds across an integer.
- The distribution of `random.shuffle` is not modelled. The shuffle takes its draws as a parameter. `ShuffleReachesEveryPermutation` shows that the model permits every order.
- The order of `os.listdir` is not modelled. The listing is a parameter, and `IsListing` requires it to name every dataset file once.
- Subdirectories of the dataset directory are not modelled. Neither is a label name that exists only as a directory (where `os.path.exists` is true but the copy fails).
- The model has no I/O errors: permissions, a full disk, or a file sitting where `makedirs` wants a directory. A destination whose parent is missing cannot arise, because the directories are created first.
- SplitDataset: requires that the dataset directory is not one of the six output directories. With the dataset at `<out>/<s>/images`, `shutil.copy` raises `SameFileError` once split s gets an image. With the dataset at `<out>/<s>/labels`, it raises once an image of s has a label. That failure is not modelled. The requires also excludes the runs where neither happens and the program finishes normally, for example a dataset at `<out>/val/images` with a val ratio of 0.
- SplitDataset: the error for bad ratios is the source's `ValueError`, written `BadRatios(RatiosMustSumToOne)`.
- SplitDataset: the ratios are not range-checked, because the code does not check them. A negative val ratio is accepted and makes train and test overlap (`NegativeValRatioOverlaps`).
- Plan: its own contract only says every split element is a listed image name. The size and coverage facts are the separate lemmas `PlanSizes` and `PlanCoversImages`, because stating them on the function is too costly for the verifier.
