/**
 * The command-line generator: loading the image folder (sort, count check, open check,
 * second count check) and the main flow, which refuses a non-positive card count before
 * touching the folder and then runs the shared card loop with the fixed label size 32.
 */
module Cli {
  import opened Wrappers
  import opened Layout
  import Fit
  import Order
  import Card
  import Batch

  /** Why the generator stops with exit status 1. */
  datatype CliError =
    | NonPositiveCount                 // `cantidad_tablas <= 0`
    | FolderNotFound(folder: string)   // FileNotFoundError from `load_images`
    | TooFewImages(found: nat)         // ValueError: fewer than 16 files matched
    | TooFewValidImages(valid: nat)    // ValueError: fewer than 16 files opened

  /**
   * What `load_images` returns or raises. `found` is what the extension globs returned, in any
   * order; `opens` says whether an image file opens and verifies.
   */
  function LoadedImages(folderPath: string, folderExists: bool, found: seq<string>, opens: string -> bool)
    : Result<seq<string>, CliError>
  {
    if !folderExists then Failure(FolderNotFound(folderPath))
    else
      var imagePaths := Order.Sort(found);
      if |imagePaths| < IMAGES_PER_CARD then Failure(TooFewImages(|imagePaths|))
      else
        var valid := Order.Filter(imagePaths, opens);
        if |valid| < IMAGES_PER_CARD then Failure(TooFewValidImages(|valid|))
        else Success(valid)
  }

  /** The open check of `load_images`: the paths whose image opens and verifies, in their order. */
  method KeepOpening(imagePaths: seq<string>, opens: string -> bool) returns (validImages: seq<string>)
    ensures validImages == Order.Filter(imagePaths, opens)
  {
    validImages := [];
    var i := 0;
    while i < |imagePaths|
      invariant 0 <= i <= |imagePaths|
      invariant validImages == Order.Filter(imagePaths[..i], opens)
    {
      assert imagePaths[..i + 1][..i] == imagePaths[..i];
      if opens(imagePaths[i]) {
        validImages := validImages + [imagePaths[i]];
      }
      i := i + 1;
    }
    assert imagePaths[..i] == imagePaths;
  }

  /** `load_images(folder_path)`: sort the matches, check the count, keep the ones that open, check again. */
  method LoadImages(folderPath: string, folderExists: bool, found: seq<string>, opens: string -> bool)
    returns (r: Result<seq<string>, CliError>)
    ensures r == LoadedImages(folderPath, folderExists, found, opens)
  {
    if !folderExists {
      return Failure(FolderNotFound(folderPath));
    }
    var imagePaths := Order.Sort(found);
    if |imagePaths| < IMAGES_PER_CARD {
      return Failure(TooFewImages(|imagePaths|));
    }
    var validImages := KeepOpening(imagePaths, opens);
    if |validImages| < IMAGES_PER_CARD {
      return Failure(TooFewValidImages(|validImages|));
    }
    return Success(validImages);
  }

  /**
   * A successful load holds at least 16 paths, sorted, in the order of the sorted matches, and
   * holds exactly the matches that open, each as often as the globs found it; the match count
   * is checked before any file is opened.
   */
  lemma LoadedImagesSorted(folderPath: string, folderExists: bool, found: seq<string>, opens: string -> bool)
    ensures var r := LoadedImages(folderPath, folderExists, found, opens);
      && (r.Success? ==>
            && |r.value| >= IMAGES_PER_CARD
            && Order.Sorted(r.value)
            && Order.IsSubsequence(r.value, Order.Sort(found))
            && (forall p :: p in r.value <==> p in found && opens(p))
            && forall p :: multiset(r.value)[p] == (if opens(p) then multiset(found)[p] else 0))
      && (folderExists && |found| < IMAGES_PER_CARD ==> r == Failure(TooFewImages(|found|)))
  {
    var imagePaths := Order.Sort(found);
    assert |imagePaths| == |found| by {
      assert |multiset(imagePaths)| == |multiset(found)|;
    }
    Order.FilterIsOrderedSubsequence(imagePaths, opens);
    Order.FilterKeepsEveryCopy(imagePaths, opens);
    forall p ensures p in imagePaths <==> p in found {
      assert p in imagePaths <==> p in multiset(imagePaths);
    }
  }

  /**
   * `main()` after argument parsing: the card count is checked first, then the folder is
   * loaded, then the cards 1..count are laid out. `rolls(i)` are the random numbers of card i.
   * Writing the pages and the PDF is left out.
   */
  method RunGenerator(folderPath: string, folderExists: bool, found: seq<string>, opens: string -> bool,
                      count: int, title: string,
                      measure: (string, nat) -> Card.Extent, decode: string -> Option<Fit.Image>,
                      rolls: int -> seq<nat>)
    returns (r: Result<seq<Batch.CardPage>, CliError>)
    ensures count <= 0 ==> r == Failure(NonPositiveCount)
    ensures count > 0 ==>
      match LoadedImages(folderPath, folderExists, found, opens)
      case Failure(e) => r == Failure(e)
      case Success(images) => r == Success(Batch.Cards(images, count, title, LABEL_FONT_SIZE, measure, decode, rolls))
  {
    if count <= 0 {
      return Failure(NonPositiveCount);
    }
    var loaded := LoadImages(folderPath, folderExists, found, opens);
    if loaded.Failure? {
      return Failure(loaded.error);
    }
    var pages := Batch.GenerateCards(loaded.value, count, title, LABEL_FONT_SIZE, measure, decode, rolls);
    return Success(pages);
  }
}
