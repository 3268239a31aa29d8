/**
 * The card batch of the library module: keeping the uploaded files whose extension is
 * accepted, refusing a pool of fewer than 16 images, and the card loop that draws 16 images
 * per card and lays out one card page per folio 1..n.
 */
module Batch {
  import opened Wrappers
  import opened Layout
  import Fit
  import Paths
  import Order
  import Sampling
  import Sequences
  import Card
  import Drawing

  /** One page of the output document: its folio, the 16 images drawn for it, and what was drawn on it. */
  datatype CardPage = CardPage(folio: int, images: seq<string>, events: seq<Drawing.DrawEvent>)

  /** `generate_loteria_pdf` raises ValueError when too few images survive the extension filter. */
  datatype BatchError = NotEnoughImages(found: nat)

  /** Each name joined onto the directory, in order. */
  function JoinAll(dir: string, names: seq<string>): (paths: seq<string>)
    ensures |paths| == |names|
    ensures forall k :: 0 <= k < |names| ==> paths[k] == Paths.Join(dir, names[k])
  {
    if |names| == 0 then []
    else JoinAll(dir, names[..|names| - 1]) + [Paths.Join(dir, names[|names| - 1])]
  }

  /** The upload names whose lower-cased extension is accepted, in upload order. */
  function AcceptedNames(uploadNames: seq<string>): seq<string> {
    Order.Filter(uploadNames, Paths.HasValidExtension)
  }

  /**
   * `load_images_from_uploads`: the temporary path of every upload whose extension is accepted,
   * in upload order. Creating the directory and writing the files are left to the caller.
   */
  method LoadImagesFromUploads(uploadNames: seq<string>, tempDir: string) returns (imagePaths: seq<string>)
    ensures imagePaths == JoinAll(tempDir, AcceptedNames(uploadNames))
  {
    imagePaths := [];
    var i := 0;
    while i < |uploadNames|
      invariant 0 <= i <= |uploadNames|
      invariant imagePaths == JoinAll(tempDir, AcceptedNames(uploadNames[..i]))
    {
      var name := uploadNames[i];
      assert uploadNames[..i + 1][..i] == uploadNames[..i];
      if Paths.HasValidExtension(name) {
        imagePaths := imagePaths + [Paths.Join(tempDir, name)];
      }
      i := i + 1;
    }
    assert uploadNames[..i] == uploadNames;
  }

  /**
   * An upload is kept exactly when its extension is accepted, every upload of an accepted name
   * is kept (so same-named uploads all count towards the 16), and the kept uploads keep their order.
   */
  lemma UploadsKept(uploadNames: seq<string>)
    ensures forall name :: name in AcceptedNames(uploadNames) <==> name in uploadNames && Paths.HasValidExtension(name)
    ensures forall name ::
      multiset(AcceptedNames(uploadNames))[name] == (if Paths.HasValidExtension(name) then multiset(uploadNames)[name] else 0)
    ensures Order.IsSubsequence(AcceptedNames(uploadNames), uploadNames)
  {
    Order.FilterIsOrderedSubsequence(uploadNames, Paths.HasValidExtension);
    Order.FilterKeepsEveryCopy(uploadNames, Paths.HasValidExtension);
  }

  /** A kept upload whose name is a bare file name keeps that name as the last component of its temporary path. */
  lemma UploadPathsKeepNames(uploadNames: seq<string>, tempDir: string, k: nat)
    requires k < |AcceptedNames(uploadNames)| && Paths.SEP !in AcceptedNames(uploadNames)[k]
    ensures Paths.Name(JoinAll(tempDir, AcceptedNames(uploadNames))[k]) == AcceptedNames(uploadNames)[k]
  {
    var name := AcceptedNames(uploadNames)[k];
    assert name in AcceptedNames(uploadNames);
    Paths.AcceptedNameNotEmpty(name);
    Paths.JoinKeepsName(tempDir, name);
  }

  /** The card with folio `i`: 16 images drawn from the pool with this card's random numbers, laid out. */
  function CardFor(pool: seq<string>, i: int, title: string, labelSize: nat,
                   measure: (string, nat) -> Card.Extent, decode: string -> Option<Fit.Image>,
                   rolls: int -> seq<nat>): CardPage
    requires |pool| >= IMAGES_PER_CARD
  {
    var selected := Sampling.Sample(pool, rolls(i), CellCount());
    CardPage(i, selected, Card.CardEvents(selected, title, i, labelSize, measure, decode))
  }

  /** The pages `page(1)`, ..., `page(count)`, in that order. */
  function Pages(count: int, page: int -> CardPage): seq<CardPage>
    decreases count
  {
    if count <= 0 then [] else Pages(count - 1, page) + [page(count)]
  }

  lemma {:induction false} PagesInOrder(count: int, page: int -> CardPage)
    ensures |Pages(count, page)| == (if count <= 0 then 0 else count)
    ensures forall j :: 0 <= j < |Pages(count, page)| ==> Pages(count, page)[j] == page(j + 1)
    decreases count
  {
    if count > 0 {
      PagesInOrder(count - 1, page);
    }
  }

  /** Card i for every folio i, from the given pool, title, label size, measurement, decoding and random numbers. */
  function CardMaker(pool: seq<string>, title: string, labelSize: nat,
                     measure: (string, nat) -> Card.Extent, decode: string -> Option<Fit.Image>,
                     rolls: int -> seq<nat>): int -> CardPage
    requires |pool| >= IMAGES_PER_CARD
  {
    i => CardFor(pool, i, title, labelSize, measure, decode, rolls)
  }

  /** The cards with folios 1..count, in order. */
  function Cards(pool: seq<string>, count: int, title: string, labelSize: nat,
                 measure: (string, nat) -> Card.Extent, decode: string -> Option<Fit.Image>,
                 rolls: int -> seq<nat>): seq<CardPage>
    requires |pool| >= IMAGES_PER_CARD
  {
    Pages(count, CardMaker(pool, title, labelSize, measure, decode, rolls))
  }

  /**
   * The card loop shared by both entry points: for i in 1..count, draw 16 images from the pool
   * (`random.sample`, whose random numbers for card i are `rolls(i)`), lay out card i, and keep
   * its page.
   */
  method GenerateCards(pool: seq<string>, count: int, title: string, labelSize: nat,
                       measure: (string, nat) -> Card.Extent, decode: string -> Option<Fit.Image>,
                       rolls: int -> seq<nat>)
    returns (pages: seq<CardPage>)
    requires |pool| >= IMAGES_PER_CARD
    ensures pages == Cards(pool, count, title, labelSize, measure, decode, rolls)
  {
    pages := [];
    var i := 1;
    while i < count + 1
      invariant 1 <= i <= (if count < 1 then 1 else count + 1)
      invariant pages == Pages(i - 1, CardMaker(pool, title, labelSize, measure, decode, rolls))
    {
      var selected := Sampling.Sample(pool, rolls(i), CellCount());
      var canvas := Card.CreateCardImage(selected, title, i, labelSize, measure, decode);
      assert CardPage(i, selected, canvas.events) == CardFor(pool, i, title, labelSize, measure, decode, rolls);
      pages := pages + [CardPage(i, selected, canvas.events)];
      i := i + 1;
    }
    if count < 1 {
      assert Pages(count, CardMaker(pool, title, labelSize, measure, decode, rolls)) == [];
    } else {
      assert i - 1 == count;
    }
  }

  /**
   * Card i holds 16 images drawn without replacement from the pool (no image twice when the
   * pool has no repeats), and its page is the layout of exactly those images under folio i.
   */
  lemma CardForDraw(pool: seq<string>, i: int, title: string, labelSize: nat,
                    measure: (string, nat) -> Card.Extent, decode: string -> Option<Fit.Image>,
                    rolls: int -> seq<nat>)
    requires |pool| >= IMAGES_PER_CARD
    ensures var card := CardFor(pool, i, title, labelSize, measure, decode, rolls);
      && card.folio == i
      && |card.images| == IMAGES_PER_CARD
      && multiset(card.images) <= multiset(pool)
      && (Sequences.Distinct(pool) ==> Sequences.Distinct(card.images))
      && card.events == Card.CardEvents(card.images, title, i, labelSize, measure, decode)
  {
    Sampling.SampleWithoutReplacement(pool, rolls(i), CellCount());
    if Sequences.Distinct(pool) {
      Sampling.SampleDistinct(pool, rolls(i), CellCount());
    }
  }

  /** The cards come out with folios 1..count in order, one per folio; the j-th is card j + 1. */
  lemma CardsInOrder(pool: seq<string>, count: int, title: string, labelSize: nat,
                     measure: (string, nat) -> Card.Extent, decode: string -> Option<Fit.Image>,
                     rolls: int -> seq<nat>)
    requires |pool| >= IMAGES_PER_CARD
    ensures var cards := Cards(pool, count, title, labelSize, measure, decode, rolls);
      && |cards| == (if count <= 0 then 0 else count)
      && forall j :: 0 <= j < |cards| ==>
           cards[j] == CardFor(pool, j + 1, title, labelSize, measure, decode, rolls) && cards[j].folio == j + 1
  {
    var maker := CardMaker(pool, title, labelSize, measure, decode, rolls);
    var cards := Cards(pool, count, title, labelSize, measure, decode, rolls);
    PagesInOrder(count, maker);
    forall j | 0 <= j < |cards|
      ensures cards[j] == CardFor(pool, j + 1, title, labelSize, measure, decode, rolls) && cards[j].folio == j + 1
    {
      assert cards[j] == maker(j + 1);
    }
  }

  /**
   * `generate_loteria_pdf(uploaded_files, cantidad_tablas, nombre_loteria, label_font_size)`:
   * fails before any card when fewer than 16 uploads are accepted, and otherwise yields the
   * pages of cards 1..count. Converting the pages to PDF bytes is left out.
   */
  method GenerateLoteriaPdf(uploadNames: seq<string>, tempDir: string, count: int, title: string, labelSize: nat,
                            measure: (string, nat) -> Card.Extent, decode: string -> Option<Fit.Image>,
                            rolls: int -> seq<nat>)
    returns (r: Result<seq<CardPage>, BatchError>)
    ensures var allImages := JoinAll(tempDir, AcceptedNames(uploadNames));
      && (|allImages| < IMAGES_PER_CARD <==> r.Failure?)
      && (r.Failure? ==> r.error == NotEnoughImages(|allImages|))
      && (r.Success? ==> r.value == Cards(allImages, count, title, labelSize, measure, decode, rolls))
  {
    var allImages := LoadImagesFromUploads(uploadNames, tempDir);
    if |allImages| < IMAGES_PER_CARD {
      return Failure(NotEnoughImages(|allImages|));
    }
    var pages := GenerateCards(allImages, count, title, labelSize, measure, decode, rolls);
    return Success(pages);
  }
}
