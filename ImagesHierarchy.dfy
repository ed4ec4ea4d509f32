/** The table of images: each image's parent and the taggers that add its
    own tags, with the ancestor walk from any image up to the root. */
module ImagesHierarchy {
  import opened Exceptions
  import opened Taggers

  /** `ImageDescription`; `taggers` defaults to the empty list. */
  datatype ImageDescription = ImageDescription(parentImage: Option<string>, taggers: seq<Tagger>)

  /** An image description with the default, empty, list of taggers. */
  function WithParent(parent: string): (d: ImageDescription)
    ensures d.parentImage == Some(parent) && d.taggers == []
  {
    ImageDescription(Some(parent), [])
  }

  const Root := "base-notebook"

  /** `ALL_IMAGES` */
  const AllImages: map<string, ImageDescription> := map[
    "base-notebook" := ImageDescription(None, [
      SHATagger,
      PythonVersionTagger,
      JupyterNotebookVersionTagger, JupyterLabVersionTagger, JupyterHubVersionTagger
    ]),
    "minimal-notebook" := WithParent("base-notebook"),
    "scipy-notebook" := WithParent("minimal-notebook"),
    "r-notebook" := ImageDescription(Some("minimal-notebook"), [RVersionTagger]),
    "tensorflow-notebook" := ImageDescription(Some("scipy-notebook"), [TensorflowVersionTagger]),
    "datascience-notebook" := ImageDescription(Some("scipy-notebook"), [JuliaVersionTagger]),
    "pyspark-notebook" := ImageDescription(Some("scipy-notebook"),
      [SparkVersionTagger, HadoopVersionTagger, JavaVersionTagger]),
    "allspark-notebook" := ImageDescription(Some("pyspark-notebook"), [RVersionTagger])
  ]

  /** The keys of `ALL_IMAGES`, in the table's order. */
  const ImageNames: seq<string> := [
    "base-notebook", "minimal-notebook", "scipy-notebook", "r-notebook",
    "tensorflow-notebook", "datascience-notebook", "pyspark-notebook", "allspark-notebook"
  ]

  lemma ImageNamesAreTheKeys()
    ensures forall name :: name in AllImages <==> name in ImageNames
    ensures |ImageNames| == |AllImages| == 8
  {
    TableKeys();
    TableSize();
  }

  lemma TableKeys()
    ensures AllImages.Keys == set name | name in ImageNames
  {
  }

  lemma TableSize()
    ensures |AllImages| == 8
  {
  }

  /** The images from `image` up to the root, following `parent_image`;
      an unknown name is a KeyError, and a repeated image would be a cycle. */
  function LineageFrom(image: string, visited: set<string>): (r: Result<seq<string>>)
    ensures r.Ok? ==> |r.value| >= 1 && r.value[0] == image
    ensures r.Ok? ==> forall j :: 0 <= j < |r.value| ==> r.value[j] in AllImages
    ensures r.Ok? ==> AllImages[r.value[|r.value| - 1]].parentImage.None?
    ensures r.Ok? ==> forall j :: 0 <= j < |r.value| - 1 ==> AllImages[r.value[j]].parentImage == Some(r.value[j + 1])
    ensures r.Ok? ==> forall j :: 0 <= j < |r.value| ==> r.value[j] !in visited
    ensures r.Ok? ==> forall i, j :: 0 <= i < j < |r.value| ==> r.value[i] != r.value[j]
    decreases AllImages.Keys - visited
  {
    if image !in AllImages then Err(KeyError(image))
    else if image in visited then Err(ParentCycle(image))
    else
      match AllImages[image].parentImage
      case None => Ok([image])
      case Some(parent) =>
        var rest :- LineageFrom(parent, visited + {image});
        Ok([image] + rest)
  }

  function Lineage(image: string): Result<seq<string>> {
    LineageFrom(image, {})
  }

  /** The taggers that apply to an image: its ancestors' from the root down,
      then its own. */
  function EffectiveTaggers(lineage: seq<string>): seq<Tagger>
    requires forall j :: 0 <= j < |lineage| ==> lineage[j] in AllImages
  {
    if lineage == [] then []
    else
      var rest := EffectiveTaggers(lineage[1..]);
      rest + AllImages[lineage[0]].taggers
  }

  predicate Distinct(ts: seq<Tagger>) {
    forall i, j :: 0 <= i < j < |ts| ==> ts[i] != ts[j]
  }

  /** `base-notebook` is the only image without a parent. */
  lemma OneRoot()
    ensures Root in AllImages
    ensures forall name :: name in AllImages ==> (AllImages[name].parentImage.None? <==> name == Root)
  {
  }

  /** Every parent named in the table is itself in the table. */
  lemma ParentsExist()
    ensures forall name :: name in AllImages && AllImages[name].parentImage.Some? ==>
              AllImages[name].parentImage.value in AllImages
  {
  }

  /** Images without taggers of their own. */
  lemma DefaultTaggers()
    ensures AllImages["minimal-notebook"].taggers == []
    ensures AllImages["scipy-notebook"].taggers == []
  {
  }

  /** The root's first tagger is the SHA tagger. */
  lemma ShaTaggerFirst()
    ensures AllImages[Root].taggers != [] && AllImages[Root].taggers[0] == SHATagger
  {
  }

  /** The parent of every image, as the table lists it. */
  lemma Parents()
    ensures "base-notebook" in AllImages && AllImages["base-notebook"].parentImage == None
    ensures "minimal-notebook" in AllImages && AllImages["minimal-notebook"].parentImage == Some("base-notebook")
    ensures "scipy-notebook" in AllImages && AllImages["scipy-notebook"].parentImage == Some("minimal-notebook")
    ensures "r-notebook" in AllImages && AllImages["r-notebook"].parentImage == Some("minimal-notebook")
    ensures "tensorflow-notebook" in AllImages && AllImages["tensorflow-notebook"].parentImage == Some("scipy-notebook")
    ensures "datascience-notebook" in AllImages && AllImages["datascience-notebook"].parentImage == Some("scipy-notebook")
    ensures "pyspark-notebook" in AllImages && AllImages["pyspark-notebook"].parentImage == Some("scipy-notebook")
    ensures "allspark-notebook" in AllImages && AllImages["allspark-notebook"].parentImage == Some("pyspark-notebook")
  {
  }

  /** Which images were visited before does not matter, as long as the walk
      does not meet them. */
  lemma {:induction false} VisitedIrrelevant(image: string, v1: set<string>, v2: set<string>)
    requires LineageFrom(image, v1).Ok?
    requires forall j :: 0 <= j < |LineageFrom(image, v1).value| ==> LineageFrom(image, v1).value[j] !in v2
    ensures LineageFrom(image, v2) == LineageFrom(image, v1)
    decreases AllImages.Keys - v1
  {
    var l := LineageFrom(image, v1).value;
    assert l[0] == image;
    match AllImages[image].parentImage
    case None =>
    case Some(parent) =>
      var rest := LineageFrom(parent, v1 + {image}).value;
      assert l == [image] + rest;
      forall j | 0 <= j < |rest| ensures rest[j] !in v2 + {image} {
        assert rest[j] == l[j + 1];
      }
      VisitedIrrelevant(parent, v1 + {image}, v2 + {image});
  }

  /** The lineage of an image is the image followed by its parent's lineage. */
  lemma LineageStep(image: string, parent: string)
    requires image in AllImages && AllImages[image].parentImage == Some(parent)
    requires Lineage(parent).Ok?
    requires forall j :: 0 <= j < |Lineage(parent).value| ==> Lineage(parent).value[j] != image
    ensures Lineage(image) == Ok([image] + Lineage(parent).value)
  {
    VisitedIrrelevant(parent, {}, {image});
    assert {} + {image} == {image};
    assert LineageFrom(parent, {image}) == Lineage(parent);
  }

  lemma LineageBase()
    ensures Lineage("base-notebook") == Ok(["base-notebook"])
  {
    Parents();
  }

  lemma LineageMinimal()
    ensures Lineage("minimal-notebook") == Ok(["minimal-notebook", "base-notebook"])
  {
    Parents();
    LineageBase();
    assert ["minimal-notebook"] + ["base-notebook"] == ["minimal-notebook", "base-notebook"];
    LineageStep("minimal-notebook", "base-notebook");
  }

  lemma LineageScipy()
    ensures Lineage("scipy-notebook") == Ok(["scipy-notebook", "minimal-notebook", "base-notebook"])
  {
    Parents();
    LineageMinimal();
    assert ["scipy-notebook"] + ["minimal-notebook", "base-notebook"] == ["scipy-notebook", "minimal-notebook", "base-notebook"];
    LineageStep("scipy-notebook", "minimal-notebook");
  }

  lemma LineageR()
    ensures Lineage("r-notebook") == Ok(["r-notebook", "minimal-notebook", "base-notebook"])
  {
    Parents();
    LineageMinimal();
    assert ["r-notebook"] + ["minimal-notebook", "base-notebook"] == ["r-notebook", "minimal-notebook", "base-notebook"];
    LineageStep("r-notebook", "minimal-notebook");
  }

  lemma LineageTensorflow()
    ensures Lineage("tensorflow-notebook") == Ok(["tensorflow-notebook", "scipy-notebook", "minimal-notebook", "base-notebook"])
  {
    Parents();
    LineageScipy();
    assert ["tensorflow-notebook"] + ["scipy-notebook", "minimal-notebook", "base-notebook"] == ["tensorflow-notebook", "scipy-notebook", "minimal-notebook", "base-notebook"];
    LineageStep("tensorflow-notebook", "scipy-notebook");
  }

  lemma LineageDatascience()
    ensures Lineage("datascience-notebook") == Ok(["datascience-notebook", "scipy-notebook", "minimal-notebook", "base-notebook"])
  {
    Parents();
    LineageScipy();
    assert ["datascience-notebook"] + ["scipy-notebook", "minimal-notebook", "base-notebook"] == ["datascience-notebook", "scipy-notebook", "minimal-notebook", "base-notebook"];
    LineageStep("datascience-notebook", "scipy-notebook");
  }

  lemma LineagePyspark()
    ensures Lineage("pyspark-notebook") == Ok(["pyspark-notebook", "scipy-notebook", "minimal-notebook", "base-notebook"])
  {
    Parents();
    LineageScipy();
    assert ["pyspark-notebook"] + ["scipy-notebook", "minimal-notebook", "base-notebook"] == ["pyspark-notebook", "scipy-notebook", "minimal-notebook", "base-notebook"];
    LineageStep("pyspark-notebook", "scipy-notebook");
  }

  lemma LineageAllspark()
    ensures Lineage("allspark-notebook") == Ok(["allspark-notebook", "pyspark-notebook", "scipy-notebook", "minimal-notebook", "base-notebook"])
  {
    Parents();
    LineagePyspark();
    assert ["allspark-notebook"] + ["pyspark-notebook", "scipy-notebook", "minimal-notebook", "base-notebook"] == ["allspark-notebook", "pyspark-notebook", "scipy-notebook", "minimal-notebook", "base-notebook"];
    LineageStep("allspark-notebook", "pyspark-notebook");
  }

  /** From every image the walk reaches the root in at most 4 steps, so the
      table has no cycle. */
  lemma WithinFourSteps()
    ensures forall name :: name in AllImages ==>
              && Lineage(name).Ok?
              && |Lineage(name).value| <= 5
              && Lineage(name).value[|Lineage(name).value| - 1] == Root
  {
    forall name | name in AllImages
      ensures && Lineage(name).Ok?
              && |Lineage(name).value| <= 5
              && Lineage(name).value[|Lineage(name).value| - 1] == Root
    {
      ShowLineage(name);
    }
  }

  /** The lineage of every image, as the eight lemmas above state it. */
  lemma ShowLineage(name: string)
    requires name in AllImages
    ensures Lineage(name).Ok?
    ensures name == "base-notebook" ==> Lineage(name).value == ["base-notebook"]
    ensures name == "minimal-notebook" ==> Lineage(name).value == ["minimal-notebook", "base-notebook"]
    ensures name == "scipy-notebook" ==> Lineage(name).value == ["scipy-notebook", "minimal-notebook", "base-notebook"]
    ensures name == "r-notebook" ==> Lineage(name).value == ["r-notebook", "minimal-notebook", "base-notebook"]
    ensures name == "tensorflow-notebook" ==>
              Lineage(name).value == ["tensorflow-notebook", "scipy-notebook", "minimal-notebook", "base-notebook"]
    ensures name == "datascience-notebook" ==>
              Lineage(name).value == ["datascience-notebook", "scipy-notebook", "minimal-notebook", "base-notebook"]
    ensures name == "pyspark-notebook" ==>
              Lineage(name).value == ["pyspark-notebook", "scipy-notebook", "minimal-notebook", "base-notebook"]
    ensures name == "allspark-notebook" ==>
              Lineage(name).value == ["allspark-notebook", "pyspark-notebook", "scipy-notebook", "minimal-notebook", "base-notebook"]
  {
    if name == "base-notebook" { LineageBase(); }
    else if name == "minimal-notebook" { LineageMinimal(); }
    else if name == "scipy-notebook" { LineageScipy(); }
    else if name == "r-notebook" { LineageR(); }
    else if name == "tensorflow-notebook" { LineageTensorflow(); }
    else if name == "datascience-notebook" { LineageDatascience(); }
    else if name == "pyspark-notebook" { LineagePyspark(); }
    else { LineageAllspark(); }
  }

  /** The taggers of each image, ancestors first. */
  lemma TaggersOfEachImage()
    ensures EffectiveTaggers(["base-notebook"]) == AllImages["base-notebook"].taggers
    ensures EffectiveTaggers(["minimal-notebook", "base-notebook"]) == AllImages["base-notebook"].taggers
    ensures EffectiveTaggers(["scipy-notebook", "minimal-notebook", "base-notebook"]) == AllImages["base-notebook"].taggers
    ensures EffectiveTaggers(["r-notebook", "minimal-notebook", "base-notebook"])
              == AllImages["base-notebook"].taggers + [RVersionTagger]
    ensures EffectiveTaggers(["tensorflow-notebook", "scipy-notebook", "minimal-notebook", "base-notebook"])
              == AllImages["base-notebook"].taggers + [TensorflowVersionTagger]
    ensures EffectiveTaggers(["datascience-notebook", "scipy-notebook", "minimal-notebook", "base-notebook"])
              == AllImages["base-notebook"].taggers + [JuliaVersionTagger]
    ensures EffectiveTaggers(["pyspark-notebook", "scipy-notebook", "minimal-notebook", "base-notebook"])
              == AllImages["base-notebook"].taggers + [SparkVersionTagger, HadoopVersionTagger, JavaVersionTagger]
    ensures EffectiveTaggers(["allspark-notebook", "pyspark-notebook", "scipy-notebook", "minimal-notebook", "base-notebook"])
              == AllImages["base-notebook"].taggers + [SparkVersionTagger, HadoopVersionTagger, JavaVersionTagger, RVersionTagger]
  {
    TaggersOfBase();
    TaggersOfMinimal();
    TaggersOfScipy();
    TaggersOfR();
    TaggersOfTensorflow();
    TaggersOfDatascience();
    TaggersOfPyspark();
    TaggersOfAllspark();
  }

  // The taggers of one image each, built on those of its parent.

  lemma TaggersOfBase()
    ensures EffectiveTaggers(["base-notebook"]) == AllImages["base-notebook"].taggers
  {
    Parents();
    TaggersStep("base-notebook", []);
  }

  lemma TaggersOfMinimal()
    ensures EffectiveTaggers(["minimal-notebook", "base-notebook"]) == AllImages["base-notebook"].taggers
  {
    Parents();
    DefaultTaggers();
    TaggersOfBase();
    TaggersStep("minimal-notebook", ["base-notebook"]);
    assert ["minimal-notebook"] + ["base-notebook"] == ["minimal-notebook", "base-notebook"];
  }

  lemma TaggersOfScipy()
    ensures EffectiveTaggers(["scipy-notebook", "minimal-notebook", "base-notebook"]) == AllImages["base-notebook"].taggers
  {
    Parents();
    DefaultTaggers();
    TaggersOfMinimal();
    TaggersStep("scipy-notebook", ["minimal-notebook", "base-notebook"]);
    assert ["scipy-notebook"] + ["minimal-notebook", "base-notebook"] == ["scipy-notebook", "minimal-notebook", "base-notebook"];
  }

  lemma TaggersOfR()
    ensures EffectiveTaggers(["r-notebook", "minimal-notebook", "base-notebook"]) == AllImages["base-notebook"].taggers + [RVersionTagger]
  {
    Parents();
    TaggersOfMinimal();
    TaggersStep("r-notebook", ["minimal-notebook", "base-notebook"]);
    assert ["r-notebook"] + ["minimal-notebook", "base-notebook"] == ["r-notebook", "minimal-notebook", "base-notebook"];
  }

  lemma TaggersOfTensorflow()
    ensures EffectiveTaggers(["tensorflow-notebook", "scipy-notebook", "minimal-notebook", "base-notebook"]) == AllImages["base-notebook"].taggers + [TensorflowVersionTagger]
  {
    Parents();
    TaggersOfScipy();
    TaggersStep("tensorflow-notebook", ["scipy-notebook", "minimal-notebook", "base-notebook"]);
    assert ["tensorflow-notebook"] + ["scipy-notebook", "minimal-notebook", "base-notebook"] == ["tensorflow-notebook", "scipy-notebook", "minimal-notebook", "base-notebook"];
  }

  lemma TaggersOfDatascience()
    ensures EffectiveTaggers(["datascience-notebook", "scipy-notebook", "minimal-notebook", "base-notebook"]) == AllImages["base-notebook"].taggers + [JuliaVersionTagger]
  {
    Parents();
    TaggersOfScipy();
    TaggersStep("datascience-notebook", ["scipy-notebook", "minimal-notebook", "base-notebook"]);
    assert ["datascience-notebook"] + ["scipy-notebook", "minimal-notebook", "base-notebook"] == ["datascience-notebook", "scipy-notebook", "minimal-notebook", "base-notebook"];
  }

  lemma TaggersOfPyspark()
    ensures EffectiveTaggers(["pyspark-notebook", "scipy-notebook", "minimal-notebook", "base-notebook"]) == AllImages["base-notebook"].taggers + [SparkVersionTagger, HadoopVersionTagger, JavaVersionTagger]
  {
    Parents();
    TaggersOfScipy();
    TaggersStep("pyspark-notebook", ["scipy-notebook", "minimal-notebook", "base-notebook"]);
    assert ["pyspark-notebook"] + ["scipy-notebook", "minimal-notebook", "base-notebook"] == ["pyspark-notebook", "scipy-notebook", "minimal-notebook", "base-notebook"];
  }

  lemma TaggersOfAllspark()
    ensures EffectiveTaggers(["allspark-notebook", "pyspark-notebook", "scipy-notebook", "minimal-notebook", "base-notebook"]) == AllImages["base-notebook"].taggers + [SparkVersionTagger, HadoopVersionTagger, JavaVersionTagger, RVersionTagger]
  {
    Parents();
    TaggersOfPyspark();
    TaggersStep("allspark-notebook", ["pyspark-notebook", "scipy-notebook", "minimal-notebook", "base-notebook"]);
    assert ["allspark-notebook"] + ["pyspark-notebook", "scipy-notebook", "minimal-notebook", "base-notebook"] == ["allspark-notebook", "pyspark-notebook", "scipy-notebook", "minimal-notebook", "base-notebook"];
  }

  /** An image's taggers come after those of its parent's lineage. */
  lemma TaggersStep(name: string, rest: seq<string>)
    requires name in AllImages
    requires forall j :: 0 <= j < |rest| ==> rest[j] in AllImages
    ensures EffectiveTaggers([name] + rest) == EffectiveTaggers(rest) + AllImages[name].taggers
  {
    var l := [name] + rest;
    assert l[0] == name;
    assert l[1..] == rest;
  }

  /** Distinct lists with no common element concatenate to a distinct list. */
  lemma DistinctAppend(a: seq<Tagger>, b: seq<Tagger>)
    requires Distinct(a) && Distinct(b)
    requires forall t :: t in a ==> t !in b
    ensures Distinct(a + b)
  {
    forall i, j | 0 <= i < j < |a + b| ensures (a + b)[i] != (a + b)[j] {
      if j >= |a| && i < |a| {
        assert (a + b)[i] in a && (a + b)[j] in b;
      }
    }
  }

  /** The walk from `name` succeeds and no tagger applies twice on it. */
  ghost predicate TaggersOnce(name: string) {
    Lineage(name).Ok? && Distinct(EffectiveTaggers(Lineage(name).value))
  }

  lemma RootTaggers()
    ensures AllImages[Root].taggers
              == [SHATagger, PythonVersionTagger, JupyterNotebookVersionTagger, JupyterLabVersionTagger, JupyterHubVersionTagger]
  {
  }

  /** The root's taggers followed by distinct new ones are distinct. */
  lemma RootTaggersPlus(own: seq<Tagger>)
    requires Distinct(own)
    requires forall t :: t in own ==> t !in AllImages[Root].taggers
    ensures Distinct(AllImages[Root].taggers + own)
  {
    var base := AllImages[Root].taggers;
    assert base == [SHATagger, PythonVersionTagger, JupyterNotebookVersionTagger, JupyterLabVersionTagger, JupyterHubVersionTagger];
    assert Distinct(base);
    DistinctAppend(base, own);
  }

  /** An image whose ancestors add `own` to the root's taggers, none of
      them twice and none of the root's again, has no tagger twice. */
  lemma TaggersOnceOf(name: string, lineage: seq<string>, own: seq<Tagger>)
    requires Lineage(name) == Ok(lineage)
    requires EffectiveTaggers(lineage) == AllImages[Root].taggers + own
    requires AddsNew(own)
    ensures TaggersOnce(name)
  {
    RootTaggersPlus(own);
  }

  /** Taggers that are distinct and not already the root's. */
  ghost predicate AddsNew(own: seq<Tagger>) {
    Distinct(own) && forall t :: t in own ==> t !in AllImages[Root].taggers
  }

  /** What the images below the root add is new. */
  lemma OwnTaggersAreNew()
    ensures AddsNew([])
    ensures AddsNew([RVersionTagger])
    ensures AddsNew([TensorflowVersionTagger])
    ensures AddsNew([JuliaVersionTagger])
  {
    RootTaggers();
  }

  lemma SparkTaggersAreNew()
    ensures AddsNew([SparkVersionTagger, HadoopVersionTagger, JavaVersionTagger])
  {
    RootTaggers();
  }

  lemma AllsparkTaggersAreNew()
    ensures AddsNew([SparkVersionTagger, HadoopVersionTagger, JavaVersionTagger, RVersionTagger])
  {
    RootTaggers();
  }

  lemma TaggersOnceBase()
    ensures TaggersOnce("base-notebook")
  {
    LineageBase();
    TaggersOfEachImage();
    OwnTaggersAreNew();
    TaggersOnceOf("base-notebook", ["base-notebook"], []);
  }

  lemma TaggersOnceMinimal()
    ensures TaggersOnce("minimal-notebook")
  {
    LineageMinimal();
    TaggersOfEachImage();
    OwnTaggersAreNew();
    TaggersOnceOf("minimal-notebook", ["minimal-notebook", "base-notebook"], []);
  }

  lemma TaggersOnceScipy()
    ensures TaggersOnce("scipy-notebook")
  {
    LineageScipy();
    TaggersOfEachImage();
    OwnTaggersAreNew();
    TaggersOnceOf("scipy-notebook", ["scipy-notebook", "minimal-notebook", "base-notebook"], []);
  }

  lemma TaggersOnceR()
    ensures TaggersOnce("r-notebook")
  {
    LineageR();
    TaggersOfEachImage();
    OwnTaggersAreNew();
    TaggersOnceOf("r-notebook", ["r-notebook", "minimal-notebook", "base-notebook"], [RVersionTagger]);
  }

  lemma TaggersOnceTensorflow()
    ensures TaggersOnce("tensorflow-notebook")
  {
    LineageTensorflow();
    TaggersOfEachImage();
    OwnTaggersAreNew();
    TaggersOnceOf("tensorflow-notebook", ["tensorflow-notebook", "scipy-notebook", "minimal-notebook", "base-notebook"], [TensorflowVersionTagger]);
  }

  lemma TaggersOnceDatascience()
    ensures TaggersOnce("datascience-notebook")
  {
    LineageDatascience();
    TaggersOfEachImage();
    OwnTaggersAreNew();
    TaggersOnceOf("datascience-notebook", ["datascience-notebook", "scipy-notebook", "minimal-notebook", "base-notebook"], [JuliaVersionTagger]);
  }

  lemma TaggersOncePyspark()
    ensures TaggersOnce("pyspark-notebook")
  {
    LineagePyspark();
    TaggersOfEachImage();
    SparkTaggersAreNew();
    TaggersOnceOf("pyspark-notebook", ["pyspark-notebook", "scipy-notebook", "minimal-notebook", "base-notebook"], [SparkVersionTagger, HadoopVersionTagger, JavaVersionTagger]);
  }

  lemma TaggersOnceAllspark()
    ensures TaggersOnce("allspark-notebook")
  {
    LineageAllspark();
    TaggersOfEachImage();
    AllsparkTaggersAreNew();
    TaggersOnceOf("allspark-notebook", ["allspark-notebook", "pyspark-notebook", "scipy-notebook", "minimal-notebook", "base-notebook"], [SparkVersionTagger, HadoopVersionTagger, JavaVersionTagger, RVersionTagger]);
  }

  lemma TaggersDistinct(name: string)
    requires name in AllImages
    ensures TaggersOnce(name)
  {
    if name == "base-notebook" {
      TaggersOnceBase();
    } else if name == "minimal-notebook" {
      TaggersOnceMinimal();
    } else if name == "scipy-notebook" {
      TaggersOnceScipy();
    } else if name == "r-notebook" {
      TaggersOnceR();
    } else if name == "tensorflow-notebook" {
      TaggersOnceTensorflow();
    } else if name == "datascience-notebook" {
      TaggersOnceDatascience();
    } else if name == "pyspark-notebook" {
      TaggersOncePyspark();
    } else {
      assert name == "allspark-notebook";
      TaggersOnceAllspark();
    }
  }

  /** No tagger applies twice to any image: no image lists a tagger one of
      its ancestors already lists. */
  lemma NoTaggerTwice()
    ensures forall name :: name in AllImages ==> TaggersOnce(name)
  {
    forall name | name in AllImages
      ensures TaggersOnce(name)
    {
      TaggersDistinct(name);
    }
  }
}
