/** Ingestion helpers of the multimodal pipeline
    (`src/01_Ingesta_multimodal_metadata.py`): the overlapping sliding-window
    chunker, the admission filter for images extracted from a PDF, the
    per-chunk metadata sent to the vector store and the manual metadata
    table with its derived `pais` field. */
module Ingestion {
  import opened Common

  // ---------------------------------------------------------------------------
  // dividir_en_chunks
  // ---------------------------------------------------------------------------

  /** Number of windows the chunker opens on a text of length `n` when the
      window start advances by `step`. */
  function ChunkCount(n: int, step: int): nat
    requires step > 0
    decreases n
  {
    if n <= 0 then 0 else 1 + ChunkCount(n - step, step)
  }

  /** Where window `i` starts: `inicio` after `i` advances by `step`. */
  function Start(i: nat, step: nat): nat
  {
    if i == 0 then 0 else Start(i - 1, step) + step
  }

  /** The start of window `i` is `i * step`. */
  lemma {:induction false} StartIsMultiple(i: nat, step: nat)
    ensures Start(i, step) == i * step
  {
    if i > 0 {
      StartIsMultiple(i - 1, step);
      MulSucc(i - 1, step);
    }
  }

  /** Chunk `i`: `texto[inicio : inicio + tam_chunk]` for its start. */
  function ChunkAt(texto: string, tamChunk: int, solapamiento: int, i: nat): string
    requires tamChunk > solapamiento
  {
    var inicio := Start(i, tamChunk - solapamiento);
    PySlice(texto, inicio, inicio + tamChunk)
  }

  /** What `dividir_en_chunks(texto, tam_chunk, solapamiento)` returns. */
  function Chunks(texto: string, tamChunk: int, solapamiento: int): seq<string>
    requires tamChunk > solapamiento
  {
    seq(ChunkCount(|texto|, tamChunk - solapamiento),
        i requires 0 <= i => ChunkAt(texto, tamChunk, solapamiento, i))
  }

  /** `dividir_en_chunks`. On a non-empty text the loop only ends when the
      window advances, so the overlap must be smaller than the window; the
      empty text never enters the loop. */
  method SplitIntoChunks(texto: string, tamChunk: int, solapamiento: int) returns (chunks: seq<string>)
    requires texto != "" ==> tamChunk > solapamiento
    ensures texto == "" ==> chunks == []
    ensures texto != "" ==> chunks == Chunks(texto, tamChunk, solapamiento)
  {
    chunks := [];
    var inicio := 0;
    var longitud := |texto|;
    ghost var step := tamChunk - solapamiento;
    while inicio < longitud
      invariant longitud == 0 ==> chunks == []
      invariant longitud > 0 ==> inicio == Start(|chunks|, step)
      invariant longitud > 0 ==> |chunks| + ChunkCount(longitud - inicio, step) == ChunkCount(longitud, step)
      invariant forall i :: 0 <= i < |chunks| ==> step > 0 && chunks[i] == ChunkAt(texto, tamChunk, solapamiento, i)
      decreases longitud - inicio
    {
      var fin := inicio + tamChunk;
      var chunk := PySlice(texto, inicio, fin);
      chunks := chunks + [chunk];
      inicio := inicio + (tamChunk - solapamiento);
    }
  }

  /** Every window the chunker opens starts inside the text. */
  lemma {:induction false} ChunkStartInside(n: int, step: int, i: nat)
    requires step > 0 && i < ChunkCount(n, step)
    ensures 0 <= Start(i, step) < n
    decreases n
  {
    if i > 0 {
      ChunkStartInside(n - step, step, i - 1);
    }
  }

  /** The windows cover the text: the start after the last window lies at
      or past its end. */
  lemma {:induction false} ChunkCountCovers(n: int, step: int)
    requires step > 0
    ensures Start(ChunkCount(n, step), step) >= n
    decreases n
  {
    if n > 0 {
      ChunkCountCovers(n - step, step);
    }
  }

  /** The number of chunks is `ceil(len(texto) / step)`. */
  lemma {:induction false} ChunkCountIsCeiling(n: nat, step: int)
    requires step > 0
    ensures ChunkCount(n, step) == (n + step - 1) / step
    decreases n
  {
    if n > step {
      var m: nat := n - step;
      ChunkCountIsCeiling(m, step);
      assert m + step - 1 == n - 1;
      DivShift(n - 1, step);
      assert n - 1 + step == n + step - 1;
    } else if n > 0 {
      assert ChunkCount(n - step, step) == 0;
      DivUnit(n + step - 1, step);
    } else {
      DivZero(step - 1, step);
    }
  }

  lemma DivShift(y: int, d: int)
    requires d > 0
    ensures (y + d) / d == y / d + 1
  {
    var q := y / d;
    var r := y % d;
    assert y == d * q + r && 0 <= r < d;
    MulSucc(q, d);
    DivUnique(y + d, d, q + 1, r);
  }

  lemma DivUnit(x: int, d: int)
    requires d > 0 && d <= x < 2 * d
    ensures x / d == 1
  {
    DivUnique(x, d, 1, x - d);
  }

  lemma DivZero(x: int, d: int)
    requires d > 0 && 0 <= x < d
    ensures x / d == 0
  {
    DivUnique(x, d, 0, x);
  }

  /** One more multiple of `d`. */
  lemma MulSucc(a: int, d: int)
    ensures (a + 1) * d == a * d + d
  {
  }

  lemma {:induction false} MulGap(d: int, a: int, b: int)
    requires d > 0 && a < b
    ensures d * a + d <= d * b
    decreases b - a
  {
    if b > a + 1 {
      MulGap(d, a, b - 1);
    }
    MulSucc(b - 1, d);
  }

  /** Euclidean division has a single quotient. */
  lemma DivUnique(x: int, d: int, q: int, r: int)
    requires d > 0 && x == d * q + r && 0 <= r < d
    ensures x / d == q
  {
    var q' := x / d;
    var r' := x % d;
    assert x == d * q' + r' && 0 <= r' < d;
    if q < q' {
      MulGap(d, q, q');
    } else if q' < q {
      MulGap(d, q', q);
    }
  }

  /** With a positive window, every chunk is the text from its start up to
      `tam_chunk` characters further (or the end), so it is non-empty and at
      most `tam_chunk` long. */
  lemma ChunkShape(texto: string, tamChunk: int, solapamiento: int, i: nat)
    requires 0 < tamChunk && solapamiento < tamChunk
    requires i < |Chunks(texto, tamChunk, solapamiento)|
    ensures var step := tamChunk - solapamiento;
      && 0 <= Start(i, step) < |texto|
      && Chunks(texto, tamChunk, solapamiento)[i] == texto[Start(i, step)..Min(Start(i, step) + tamChunk, |texto|)]
    ensures 0 < |Chunks(texto, tamChunk, solapamiento)[i]| <= tamChunk
  {
    var step := tamChunk - solapamiento;
    var inicio := Start(i, step);
    ChunkStartInside(|texto|, step, i);
    var c := PySlice(texto, inicio, inicio + tamChunk);
    assert c == texto[inicio..Min(inicio + tamChunk, |texto|)];
  }

  /** The first chunk followed by every later chunk without its first
      `solapamiento` characters (`chunk[solapamiento:]`). */
  function Reassemble(chunks: seq<string>, solapamiento: nat): string
  {
    if |chunks| == 0 then ""
    else if |chunks| == 1 then chunks[0]
    else
      var last := chunks[|chunks| - 1];
      Reassemble(chunks[..|chunks| - 1], solapamiento) + PySlice(last, solapamiento, |last|)
  }

  /** Windows of width `tam_chunk` whose starts advance by `step`, each
      starting inside the text. */
  ghost predicate Windows(texto: string, cs: seq<string>, step: nat, tamChunk: nat)
  {
    |cs| == 0 ||
      var i := |cs| - 1;
      && Windows(texto, cs[..i], step, tamChunk)
      && Start(i, step) < |texto|
      && cs[i] == texto[Start(i, step)..Min(Start(i, step) + tamChunk, |texto|)]
  }

  /** One reassembly step on plain offsets: when all but the last window
      reassemble to the text up to the end of the one before, all of them
      reassemble to the text up to the end of the last one, which starts at
      `s`. */
  lemma ReassembleStep(texto: string, cs: seq<string>, s: nat, e: int, solapamiento: nat, tamChunk: int)
    requires solapamiento < tamChunk && s < |texto| && 2 <= |cs|
    requires e == Min(s + solapamiento, |texto|)
    requires Reassemble(cs[..|cs| - 1], solapamiento) == texto[..e]
    requires cs[|cs| - 1] == texto[s..Min(s + tamChunk, |texto|)]
    ensures Reassemble(cs, solapamiento) == texto[..Min(s + tamChunk, |texto|)]
  {
    var n := |texto|;
    var last := cs[|cs| - 1];
    assert Reassemble(cs, solapamiento) == texto[..e] + PySlice(last, solapamiento, |last|);
    if s + solapamiento <= n {
      assert PySlice(last, solapamiento, |last|) == texto[s + solapamiento..Min(s + tamChunk, n)];
      assert texto[..s + solapamiento] + texto[s + solapamiento..Min(s + tamChunk, n)]
          == texto[..Min(s + tamChunk, n)];
    } else {
      assert PySlice(last, solapamiento, |last|) == [];
    }
  }

  /** The last of a run of windows, and the run before it. */
  lemma WindowsLast(texto: string, cs: seq<string>, step: nat, tamChunk: nat)
    requires Windows(texto, cs, step, tamChunk) && |cs| > 0
    ensures Windows(texto, cs[..|cs| - 1], step, tamChunk)
    ensures Start(|cs| - 1, step) < |texto|
    ensures cs[|cs| - 1] == texto[Start(|cs| - 1, step)..Min(Start(|cs| - 1, step) + tamChunk, |texto|)]
  {
  }

  /** A window ends `solapamiento` characters after the next one starts. */
  lemma StartOverlap(i: nat, step: nat, tamChunk: int, solapamiento: nat)
    requires step == tamChunk - solapamiento && i > 0
    ensures Start(i - 1, step) + tamChunk == Start(i, step) + solapamiento
  {
  }

  /** `ReassembleStep` with the window offsets written as window starts. */
  lemma ReassembleNext(texto: string, cs: seq<string>, step: nat, tamChunk: int, solapamiento: nat)
    requires step == tamChunk - solapamiento > 0 && 2 <= |cs|
    requires Reassemble(cs[..|cs| - 1], solapamiento) == texto[..Min(Start(|cs| - 2, step) + tamChunk, |texto|)]
    requires Start(|cs| - 1, step) < |texto|
    requires cs[|cs| - 1] == texto[Start(|cs| - 1, step)..Min(Start(|cs| - 1, step) + tamChunk, |texto|)]
    ensures Reassemble(cs, solapamiento) == texto[..Min(Start(|cs| - 1, step) + tamChunk, |texto|)]
  {
    var i := |cs| - 1;
    StartOverlap(i, step, tamChunk, solapamiento);
    ReassembleStep(texto, cs, Start(i, step), Min(Start(i - 1, step) + tamChunk, |texto|), solapamiento, tamChunk);
  }

  /** Reassembling windows gives the text up to the end of the last one. */
  lemma {:induction false} ReassembleWindows(texto: string, cs: seq<string>, step: nat, tamChunk: int,
                                             solapamiento: nat)
    requires step == tamChunk - solapamiento > 0 && Windows(texto, cs, step, tamChunk)
    requires |cs| > 0
    ensures Reassemble(cs, solapamiento) == texto[..Min(Start(|cs| - 1, step) + tamChunk, |texto|)]
  {
    var i := |cs| - 1;
    WindowsLast(texto, cs, step, tamChunk);
    if i > 0 {
      var pre := cs[..i];
      ReassembleWindows(texto, pre, step, tamChunk, solapamiento);
      assert |pre| - 1 == i - 1;
      ReassembleNext(texto, cs, step, tamChunk, solapamiento);
    } else {
      ReassembleOne(texto, cs, tamChunk, solapamiento);
    }
  }

  /** A single window starting at 0 reassembles to itself. */
  lemma ReassembleOne(texto: string, cs: seq<string>, tamChunk: nat, solapamiento: nat)
    requires |cs| == 1 && 0 < |texto| && cs[0] == texto[0..Min(tamChunk, |texto|)]
    ensures Reassemble(cs, solapamiento) == texto[..Min(tamChunk, |texto|)]
  {
    assert texto[0..Min(tamChunk, |texto|)] == texto[..Min(tamChunk, |texto|)];
  }

  /** Every prefix of the chunks is a run of windows of the text. */
  lemma {:induction false} ChunksAreWindows(texto: string, tamChunk: int, solapamiento: nat, k: nat)
    requires solapamiento < tamChunk && k <= |Chunks(texto, tamChunk, solapamiento)|
    ensures Windows(texto, Chunks(texto, tamChunk, solapamiento)[..k], tamChunk - solapamiento, tamChunk)
  {
    var cs := Chunks(texto, tamChunk, solapamiento);
    if k > 0 {
      ChunksAreWindows(texto, tamChunk, solapamiento, k - 1);
      ChunkShape(texto, tamChunk, solapamiento, k - 1);
      assert cs[..k][..k - 1] == cs[..k - 1];
      assert cs[..k][k - 1] == cs[k - 1];
    }
  }

  /** Round trip: with `0 <= solapamiento < tam_chunk`, dropping the overlap
      from every chunk but the first and concatenating gives back the text. */
  lemma ChunksReassemble(texto: string, tamChunk: int, solapamiento: nat)
    requires solapamiento < tamChunk
    ensures Reassemble(Chunks(texto, tamChunk, solapamiento), solapamiento) == texto
  {
    var cs := Chunks(texto, tamChunk, solapamiento);
    var step := tamChunk - solapamiento;
    var m := |cs|;
    assert m == ChunkCount(|texto|, step);
    if |texto| == 0 {
      assert texto == [];
    } else {
      ChunkCountCovers(|texto|, step);
      assert Start(m, step) == Start(m - 1, step) + step;
      var e := Min(Start(m - 1, step) + tamChunk, |texto|);
      assert e == |texto|;
      ChunksAreWindows(texto, tamChunk, solapamiento, m);
      assert cs[..m] == cs;
      ReassembleWindows(texto, cs, step, tamChunk, solapamiento);
      assert texto[..e] == texto;
    }
  }

  // ---------------------------------------------------------------------------
  // Image admission in extraer_info_pdf
  // ---------------------------------------------------------------------------

  const MinAncho := 200
  const MinAlto := 200
  const MinBytes := 6144
  const MaxRatioAspecto: real := 3.5
  const MinPixelesTotales := 150000

  /** What the PDF library returns for one embedded image: its file
      extension, its pixel dimensions and the length of its encoded bytes. */
  datatype ExtractedImage = ExtractedImage(ext: string, width: nat, height: nat, size: nat)

  /** Outcome of the filter for one image reference of a page. */
  datatype Verdict = Kept | ExtractionFailed | TooSmall | TooFewPixels | TooLight | TooElongated

  /** The longer side over the shorter one; `None` where the division by a
      zero side raises. */
  function AspectRatio(width: nat, height: nat): (r: Option<real>)
    ensures r.None? <==> Min(width, height) == 0
    ensures r.Some? ==> r.value * (Min(width, height) as real) == Max(width, height) as real
  {
    if width > height then
      (if height == 0 then None else Some(width as real / height as real))
    else
      (if width == 0 then None else Some(height as real / width as real))
  }

  /** The guards applied to each image, in their order. `None` stands for an
      extraction that raised; an exception raised while computing the ratio
      is caught by the same handler, so that image is skipped too. */
  function Admission(img: Option<ExtractedImage>): Verdict
  {
    match img
    case None => ExtractionFailed
    case Some(e) =>
      match AspectRatio(e.width, e.height)
      case None => ExtractionFailed
      case Some(ratio) =>
        if e.width < MinAncho || e.height < MinAlto then TooSmall
        else if e.width * e.height < MinPixelesTotales then TooFewPixels
        else if e.size < MinBytes then TooLight
        else if ratio > MaxRatioAspecto then TooElongated
        else Kept
  }

  /** `ratio <= 3.5` is `2 * long <= 7 * short`. */
  lemma RatioWithinBound(ratio: real, short: nat, long: nat)
    requires short > 0 && ratio * (short as real) == long as real
    ensures ratio <= MaxRatioAspecto <==> 2 * long <= 7 * short
  {
    var b := short as real;
    assert (ratio - 3.5) * b == long as real - 3.5 * b;
    if ratio > 3.5 {
      assert (ratio - 3.5) * b > 0.0;
    } else {
      assert (3.5 - ratio) * b >= 0.0;
    }
  }

  /** An image is kept exactly when it is at least 200x200, has at least
      150000 pixels and 6144 bytes, and its aspect ratio is at most 3.5. */
  lemma AdmissionIff(img: Option<ExtractedImage>)
    ensures Admission(img) == Kept <==>
      && img.Some?
      && img.value.width >= MinAncho && img.value.height >= MinAlto
      && img.value.width * img.value.height >= MinPixelesTotales
      && img.value.size >= MinBytes
      && 2 * Max(img.value.width, img.value.height) <= 7 * Min(img.value.width, img.value.height)
  {
    if img.Some? {
      var e := img.value;
      var r := AspectRatio(e.width, e.height);
      if r.Some? {
        RatioWithinBound(r.value, Min(e.width, e.height), Max(e.width, e.height));
      }
    }
  }

  /** One page as the PDF library presents it: its text and its image
      references, each either extracted or failing. */
  datatype PdfPage = PdfPage(text: string, images: seq<Option<ExtractedImage>>)

  /** The record kept for an admitted image. */
  datatype ImageRecord = ImageRecord(ruta: string, pagina: nat, indice: nat, nombre: string, dimensiones: string)

  /** `f"{nombre_pdf}_pag{num_pag}_img{idx_img}.{ext}"`: the name starts
      with the PDF's name and ends with a dot and the extension. */
  function ImageName(nombrePdf: string, numPag: nat, idxImg: nat, ext: string): (r: string)
    ensures |r| > |nombrePdf| + |ext| && r[..|nombrePdf|] == nombrePdf
    ensures r[|r| - |ext| - 1] == '.' && r[|r| - |ext|..] == ext
  {
    nombrePdf + "_pag" + NatToString(numPag) + "_img" + NatToString(idxImg) + "." + ext
  }

  function MakeRecord(imagenesDir: string, nombrePdf: string, numPag: nat, idxImg: nat, e: ExtractedImage): (r: ImageRecord)
    ensures r.pagina == numPag && r.indice == idxImg
  {
    var nombre := ImageName(nombrePdf, numPag, idxImg, e.ext);
    ImageRecord(imagenesDir + "/" + nombre, numPag, idxImg, nombre,
                NatToString(e.width) + "x" + NatToString(e.height))
  }

  /** The text of the pages, each behind its numbered header (pages count
      from 1). */
  function PagesText(pages: seq<PdfPage>): string
  {
    if pages == [] then ""
    else
      PagesText(pages[..|pages| - 1])
      + "\n--- PÁGINA " + NatToString(|pages|) + " ---\n" + pages[|pages| - 1].text
  }

  /** Records of the admitted images among the first references of page
      `numPag`. */
  function PageImages(imagenesDir: string, nombrePdf: string, numPag: nat,
                      imgs: seq<Option<ExtractedImage>>): seq<ImageRecord>
  {
    if |imgs| == 0 then []
    else
      var j := |imgs| - 1;
      var front := PageImages(imagenesDir, nombrePdf, numPag, imgs[..j]);
      if Admission(imgs[j]) == Kept then front + [MakeRecord(imagenesDir, nombrePdf, numPag, j, imgs[j].value)]
      else front
  }

  /** Records of the admitted images of all the pages, page by page. */
  function KeptImages(imagenesDir: string, nombrePdf: string, pages: seq<PdfPage>): seq<ImageRecord>
  {
    if |pages| == 0 then []
    else
      KeptImages(imagenesDir, nombrePdf, pages[..|pages| - 1])
      + PageImages(imagenesDir, nombrePdf, |pages|, pages[|pages| - 1].images)
  }

  /** `extraer_info_pdf` without the file writes: the accumulated page text
      and the records of the images that pass the filter. */
  method ExtractPdfInfo(imagenesDir: string, nombrePdf: string, pages: seq<PdfPage>)
    returns (textoCompleto: string, listaImagenes: seq<ImageRecord>)
    ensures textoCompleto == PagesText(pages)
    ensures listaImagenes == KeptImages(imagenesDir, nombrePdf, pages)
  {
    textoCompleto := "";
    listaImagenes := [];
    for p := 0 to |pages|
      invariant textoCompleto == PagesText(pages[..p])
      invariant listaImagenes == KeptImages(imagenesDir, nombrePdf, pages[..p])
    {
      var numPag := p + 1;
      var pagina := pages[p];
      assert pages[..p + 1][..p] == pages[..p];
      textoCompleto := textoCompleto + "\n--- PÁGINA " + NatToString(numPag) + " ---\n" + pagina.text;
      ghost var before := listaImagenes;
      for idxImg := 0 to |pagina.images|
        invariant listaImagenes == before + PageImages(imagenesDir, nombrePdf, numPag, pagina.images[..idxImg])
      {
        assert pagina.images[..idxImg + 1][..idxImg] == pagina.images[..idxImg];
        var img := pagina.images[idxImg];
        if img.None? {
          continue;
        }
        var e := img.value;
        var ratio := AspectRatio(e.width, e.height);
        if ratio.None? {
          continue;
        }
        if e.width < MinAncho || e.height < MinAlto {
          continue;
        }
        if e.width * e.height < MinPixelesTotales {
          continue;
        }
        if e.size < MinBytes {
          continue;
        }
        if ratio.value > MaxRatioAspecto {
          continue;
        }
        var nombreImagen := ImageName(nombrePdf, numPag, idxImg, e.ext);
        listaImagenes := listaImagenes + [ImageRecord(imagenesDir + "/" + nombreImagen, numPag, idxImg, nombreImagen,
                                                      NatToString(e.width) + "x" + NatToString(e.height))];
      }
      assert pagina.images[..|pagina.images|] == pagina.images;
    }
    assert pages[..|pages|] == pages;
  }

  /** Image `i` of the page is admitted and `r` is its record. */
  ghost predicate KeptAt(imagenesDir: string, nombrePdf: string, numPag: nat,
                         imgs: seq<Option<ExtractedImage>>, i: int, r: ImageRecord)
  {
    0 <= i < |imgs| && Admission(imgs[i]) == Kept
    && r == MakeRecord(imagenesDir, nombrePdf, numPag, i, imgs[i].value)
  }

  /** Every record of a page comes from an admitted image. */
  lemma {:induction false} PageImagesSource(imagenesDir: string, nombrePdf: string, numPag: nat,
                                            imgs: seq<Option<ExtractedImage>>, r: ImageRecord)
    returns (i: int)
    requires r in PageImages(imagenesDir, nombrePdf, numPag, imgs)
    ensures KeptAt(imagenesDir, nombrePdf, numPag, imgs, i, r)
  {
    var j := |imgs| - 1;
    var front := PageImages(imagenesDir, nombrePdf, numPag, imgs[..j]);
    if r in front {
      i := PageImagesSource(imagenesDir, nombrePdf, numPag, imgs[..j], r);
      assert imgs[..j][i] == imgs[i];
    } else {
      i := j;
    }
  }

  /** Every admitted image of a page has its record. */
  lemma {:induction false} PageImagesKeep(imagenesDir: string, nombrePdf: string, numPag: nat,
                                          imgs: seq<Option<ExtractedImage>>, r: ImageRecord, i: int)
    requires KeptAt(imagenesDir, nombrePdf, numPag, imgs, i, r)
    ensures r in PageImages(imagenesDir, nombrePdf, numPag, imgs)
  {
    var j := |imgs| - 1;
    var front := PageImages(imagenesDir, nombrePdf, numPag, imgs[..j]);
    if i < j {
      assert imgs[..j][i] == imgs[i];
      PageImagesKeep(imagenesDir, nombrePdf, numPag, imgs[..j], r, i);
      assert r in front;
    } else {
      assert PageImages(imagenesDir, nombrePdf, numPag, imgs) == front + [r];
    }
  }

  /** A page keeps exactly the records of its admitted images. */
  lemma PageImagesMember(imagenesDir: string, nombrePdf: string, numPag: nat,
                         imgs: seq<Option<ExtractedImage>>, r: ImageRecord)
    ensures r in PageImages(imagenesDir, nombrePdf, numPag, imgs) <==>
      exists i :: 0 <= i < |imgs| && Admission(imgs[i]) == Kept
                  && r == MakeRecord(imagenesDir, nombrePdf, numPag, i, imgs[i].value)
  {
    if r in PageImages(imagenesDir, nombrePdf, numPag, imgs) {
      var i := PageImagesSource(imagenesDir, nombrePdf, numPag, imgs, r);
    }
    if exists i :: 0 <= i < |imgs| && Admission(imgs[i]) == Kept
                   && r == MakeRecord(imagenesDir, nombrePdf, numPag, i, imgs[i].value) {
      var i :| 0 <= i < |imgs| && Admission(imgs[i]) == Kept
               && r == MakeRecord(imagenesDir, nombrePdf, numPag, i, imgs[i].value);
      PageImagesKeep(imagenesDir, nombrePdf, numPag, imgs, r, i);
    }
  }

  /** Records of one page carry that page number and strictly increasing
      image indices below `bound`. */
  ghost predicate PageOrdered(rs: seq<ImageRecord>, numPag: nat, bound: nat)
  {
    && (forall a :: 0 <= a < |rs| ==> rs[a].pagina == numPag && rs[a].indice < bound)
    && (forall a, b :: 0 <= a < b < |rs| ==> rs[a].indice < rs[b].indice)
  }

  lemma {:induction false} PageImagesOrdered(imagenesDir: string, nombrePdf: string, numPag: nat,
                                             imgs: seq<Option<ExtractedImage>>)
    ensures PageOrdered(PageImages(imagenesDir, nombrePdf, numPag, imgs), numPag, |imgs|)
  {
    if imgs != [] {
      var j := |imgs| - 1;
      var front := PageImages(imagenesDir, nombrePdf, numPag, imgs[..j]);
      PageImagesOrdered(imagenesDir, nombrePdf, numPag, imgs[..j]);
      if Admission(imgs[j]) == Kept {
        var last := MakeRecord(imagenesDir, nombrePdf, numPag, j, imgs[j].value);
        var rs := front + [last];
        assert PageImages(imagenesDir, nombrePdf, numPag, imgs) == rs;
        assert forall a :: 0 <= a < |front| ==> rs[a] == front[a];
        assert rs[|front|] == last;
      } else {
        assert PageImages(imagenesDir, nombrePdf, numPag, imgs) == front;
      }
    }
  }

  /** Position order: by page, then by image index within the page. */
  ghost predicate InPositionOrder(rs: seq<ImageRecord>)
  {
    forall a, b :: 0 <= a < b < |rs| ==>
      rs[a].pagina < rs[b].pagina || (rs[a].pagina == rs[b].pagina && rs[a].indice < rs[b].indice)
  }

  /** The kept records are in page order and then image order, so no
      image is listed twice; all carry a page number of the document. */
  lemma {:induction false} KeptImagesOrdered(imagenesDir: string, nombrePdf: string, pages: seq<PdfPage>)
    ensures var rs := KeptImages(imagenesDir, nombrePdf, pages);
      && InPositionOrder(rs)
      && (forall a :: 0 <= a < |rs| ==> 1 <= rs[a].pagina <= |pages|)
  {
    if pages != [] {
      var n := |pages|;
      var front := KeptImages(imagenesDir, nombrePdf, pages[..n - 1]);
      var back := PageImages(imagenesDir, nombrePdf, n, pages[n - 1].images);
      KeptImagesOrdered(imagenesDir, nombrePdf, pages[..n - 1]);
      PageImagesOrdered(imagenesDir, nombrePdf, n, pages[n - 1].images);
      var rs := front + back;
      assert forall a :: 0 <= a < |rs| ==> 1 <= rs[a].pagina <= n by {
        forall a | 0 <= a < |rs| ensures 1 <= rs[a].pagina <= n {
          if a < |front| {
            assert rs[a] == front[a];
          } else {
            assert rs[a] == back[a - |front|];
          }
        }
      }
      forall a, b | 0 <= a < b < |rs|
        ensures rs[a].pagina < rs[b].pagina || (rs[a].pagina == rs[b].pagina && rs[a].indice < rs[b].indice)
      {
        if b < |front| {
          assert rs[a] == front[a] && rs[b] == front[b];
        } else if a < |front| {
          assert rs[a] == front[a] && rs[b] == back[b - |front|];
        } else {
          assert rs[a] == back[a - |front|] && rs[b] == back[b - |front|];
        }
      }
    }
  }

  /** A record is kept exactly when it stands for an admitted image of
      some page (page numbers count from 1). */
  lemma {:induction false} KeptImagesMember(imagenesDir: string, nombrePdf: string, pages: seq<PdfPage>, r: ImageRecord)
    ensures r in KeptImages(imagenesDir, nombrePdf, pages) <==>
      exists p :: 0 <= p < |pages| && r in PageImages(imagenesDir, nombrePdf, p + 1, pages[p].images)
  {
    if pages != [] {
      var n := |pages|;
      var pre := pages[..n - 1];
      KeptImagesMember(imagenesDir, nombrePdf, pre, r);
      if exists p :: 0 <= p < |pre| && r in PageImages(imagenesDir, nombrePdf, p + 1, pre[p].images) {
        var p :| 0 <= p < |pre| && r in PageImages(imagenesDir, nombrePdf, p + 1, pre[p].images);
        assert pre[p] == pages[p];
      }
      if exists p :: 0 <= p < n && r in PageImages(imagenesDir, nombrePdf, p + 1, pages[p].images) {
        var p :| 0 <= p < n && r in PageImages(imagenesDir, nombrePdf, p + 1, pages[p].images);
        if p < n - 1 {
          assert pre[p] == pages[p];
        }
      }
    }
  }

  // ---------------------------------------------------------------------------
  // Chunk metadata in indexar_texto_chroma
  // ---------------------------------------------------------------------------

  /** A list value becomes its items joined by ", "; other values stay. */
  function Flatten(v: MetaValue): (r: MetaValue)
    ensures !r.StrList?
    ensures !v.StrList? ==> r == v
  {
    match v
    case StrList(items) => Str(Join(items, ", "))
    case _ => v
  }

  /** The metadata of chunk `i` of `nombrePdf`: the base with flattened
      lists, then the three chunk fields written over it. */
  function ChunkMetadata(base: Metadata, i: nat, nombrePdf: string): Metadata
  {
    (map k | k in base :: Flatten(base[k]))["tipo" := Str("texto")]["chunk_id" := Int(i)]["origen_pdf" := Str(nombrePdf)]
  }

  /** The per-chunk copy of `metadata_base`, list values flattened in place,
      then updated with the chunk fields. The base is a value here, so it is
      left as it was. */
  method BuildChunkMetadata(metadataBase: Metadata, i: nat, nombrePdf: string) returns (metadata: Metadata)
    ensures metadata == ChunkMetadata(metadataBase, i, nombrePdf)
  {
    metadata := metadataBase;
    var pendientes := metadataBase.Keys;
    while pendientes != {}
      invariant pendientes <= metadataBase.Keys
      invariant metadata.Keys == metadataBase.Keys
      invariant forall k :: k in metadataBase ==>
        metadata[k] == if k in pendientes then metadataBase[k] else Flatten(metadataBase[k])
      decreases pendientes
    {
      var k :| k in pendientes;
      var v := metadata[k];
      if v.StrList? {
        metadata := metadata[k := Str(Join(v.items, ", "))];
      }
      pendientes := pendientes - {k};
    }
    metadata := metadata["tipo" := Str("texto")]["chunk_id" := Int(i)]["origen_pdf" := Str(nombrePdf)];
  }

  /** The chunk metadata has the base keys plus the three chunk fields,
      those fields hold the chunk's own values whatever the base said, every
      other key keeps its base value with lists flattened, and no value is a
      list. */
  lemma ChunkMetadataShape(base: Metadata, i: nat, nombrePdf: string)
    ensures var m := ChunkMetadata(base, i, nombrePdf);
      && m.Keys == base.Keys + {"tipo", "chunk_id", "origen_pdf"}
      && m["tipo"] == Str("texto") && m["chunk_id"] == Int(i) && m["origen_pdf"] == Str(nombrePdf)
      && (forall k :: k in base && k !in {"tipo", "chunk_id", "origen_pdf"} ==> m[k] == Flatten(base[k]))
      && (forall k :: k in m ==> !m[k].StrList?)
  {
  }

  /** Id of chunk `i` of a PDF. */
  function ChunkId(nombrePdf: string, i: nat): string
  {
    nombrePdf + "_chunk_" + NatToString(i)
  }

  /** Chunks of one PDF get different ids. */
  lemma ChunkIdsDistinct(nombrePdf: string, i: nat, j: nat)
    requires i != j
    ensures ChunkId(nombrePdf, i) != ChunkId(nombrePdf, j)
  {
    var pre := nombrePdf + "_chunk_";
    if ChunkId(nombrePdf, i) == ChunkId(nombrePdf, j) {
      assert NatToString(i) == ChunkId(nombrePdf, i)[|pre|..];
      assert NatToString(j) == ChunkId(nombrePdf, j)[|pre|..];
      NatToStringInjective(i, j);
    }
  }

  /** What is handed to the vector store for one PDF; the embeddings are
      computed by an external model and are not part of the model. */
  datatype ChunkBatch = ChunkBatch(ids: seq<string>, documentos: seq<string>, metadatos: seq<Metadata>)

  const TamChunk := 500
  const Solapamiento := 100

  /** `indexar_texto_chroma`: chunk the text with the default window, then
      give each chunk its id and metadata. */
  method IndexTextChunks(texto: string, metadataBase: Metadata, nombrePdf: string) returns (batch: ChunkBatch)
    ensures batch.documentos == Chunks(texto, TamChunk, Solapamiento)
    ensures |batch.ids| == |batch.documentos| == |batch.metadatos|
    ensures forall i :: 0 <= i < |batch.ids| ==>
      batch.ids[i] == ChunkId(nombrePdf, i) && batch.metadatos[i] == ChunkMetadata(metadataBase, i, nombrePdf)
  {
    var chunks := SplitIntoChunks(texto, TamChunk, Solapamiento);
    var ids := [];
    var documentos := [];
    var metadatos := [];
    for i := 0 to |chunks|
      invariant |ids| == |documentos| == |metadatos| == i
      invariant documentos == chunks[..i]
      invariant forall j :: 0 <= j < i ==>
        ids[j] == ChunkId(nombrePdf, j) && metadatos[j] == ChunkMetadata(metadataBase, j, nombrePdf)
    {
      ids := ids + [nombrePdf + "_chunk_" + NatToString(i)];
      documentos := documentos + [chunks[i]];
      var metadata := BuildChunkMetadata(metadataBase, i, nombrePdf);
      metadatos := metadatos + [metadata];
    }
    assert chunks[..|chunks|] == chunks;
    batch := ChunkBatch(ids, documentos, metadatos);
  }

  // ---------------------------------------------------------------------------
  // cargar_metadata_manual
  // ---------------------------------------------------------------------------

  /** The derived `pais`: `"Japón" in item.get("ubicacion", "")`. On a
      string this is a substring test, on a list a membership test; any
      other value makes Python raise, here `None`. */
  function Pais(item: Metadata): (r: Option<string>)
  {
    match GetOr(item, "ubicacion", Str(""))
    case Str(s) => Some(if IsSubstring("Japón", s) then "Japón" else "España")
    case StrList(items) => Some(if "Japón" in items then "Japón" else "España")
    case _ => None
  }

  /** `pais` is "Japón" exactly when the location mentions Japón, and
      "España" otherwise, including when the location is missing. */
  lemma PaisIff(item: Metadata)
    ensures "ubicacion" !in item ==> Pais(item) == Some("España")
    ensures "ubicacion" in item && item["ubicacion"].Str? ==>
      (Pais(item) == Some("Japón") <==> exists i :: OccursAt("Japón", item["ubicacion"].s, i))
      && (Pais(item) == Some("España") <==> !exists i :: OccursAt("Japón", item["ubicacion"].s, i))
    ensures "ubicacion" in item && item["ubicacion"].StrList? ==>
      (Pais(item) == Some("Japón") <==> "Japón" in item["ubicacion"].items)
      && (Pais(item) == Some("España") <==> "Japón" !in item["ubicacion"].items)
    ensures Pais(item).None? <==> "ubicacion" in item && (item["ubicacion"].Int? || item["ubicacion"].Null?)
  {
    if "ubicacion" in item && item["ubicacion"].Str? {
      IsSubstringIff("Japón", item["ubicacion"].s);
    } else if "ubicacion" !in item {
      assert !IsSubstring("Japón", "");
    }
  }

  /** The entry kept for one manual item. */
  function ManualEntry(item: Metadata, pais: string): Metadata
  {
    map[
      "titulo" := GetOr(item, "titulo", Null),
      "ubicacion" := GetOr(item, "ubicacion", Null),
      "categoria" := GetOr(item, "categoria", Null),
      "palabras_clave" := GetOr(item, "palabras_clave", StrList([])),
      "pais" := Str(pais),
      "dominio" := Str("turismo")
    ]
  }

  /** The key an item is filed under: its `nombre_archivo`, if present and
      hashable (a list is not). */
  function ItemKey(item: Metadata): Option<MetaValue>
  {
    if "nombre_archivo" in item && !item["nombre_archivo"].StrList? then Some(item["nombre_archivo"]) else None
  }

  /** Whether the loop gets past this item without raising. */
  predicate Loadable(item: Metadata)
  {
    ItemKey(item).Some? && Pais(item).Some?
  }

  /** The table `cargar_metadata_manual` builds from the parsed JSON list,
      or `None` when some item makes it raise. */
  function ManualMetadata(items: seq<Metadata>): Option<map<MetaValue, Metadata>>
  {
    if items == [] then Some(map[])
    else
      var last := items[|items| - 1];
      match ManualMetadata(items[..|items| - 1])
      case None => None
      case Some(m) =>
        if Loadable(last) then Some(m[ItemKey(last).value := ManualEntry(last, Pais(last).value)])
        else None
  }

  /** `cargar_metadata_manual` on an already parsed list of items. */
  method LoadManualMetadata(listaMetadata: seq<Metadata>) returns (res: Option<map<MetaValue, Metadata>>)
    ensures res == ManualMetadata(listaMetadata)
  {
    var metadataPorPdf: map<MetaValue, Metadata> := map[];
    for n := 0 to |listaMetadata|
      invariant ManualMetadata(listaMetadata[..n]) == Some(metadataPorPdf)
    {
      assert listaMetadata[..n + 1][..n] == listaMetadata[..n];
      var item := listaMetadata[n];
      if "nombre_archivo" !in item || item["nombre_archivo"].StrList? {
        // KeyError, or an unhashable key
        assert !Loadable(listaMetadata[..n + 1][n]);
        assert ManualMetadata(listaMetadata) == None by {
          LoadFailureSticks(listaMetadata, n + 1);
        }
        return None;
      }
      var nombrePdf := item["nombre_archivo"];
      var pais := Pais(item);
      if pais.None? {
        // TypeError from `in` on a non-string location
        LoadFailureSticks(listaMetadata, n + 1);
        return None;
      }
      metadataPorPdf := metadataPorPdf[nombrePdf := ManualEntry(item, pais.value)];
    }
    assert listaMetadata[..|listaMetadata|] == listaMetadata;
    res := Some(metadataPorPdf);
  }

  /** Once some prefix fails to load, the whole list fails. */
  lemma {:induction false} LoadFailureSticks(items: seq<Metadata>, n: nat)
    requires n <= |items| && ManualMetadata(items[..n]).None?
    ensures ManualMetadata(items).None?
    decreases |items| - n
  {
    if n < |items| {
      assert items[..n + 1][..n] == items[..n];
      LoadFailureSticks(items, n + 1);
    } else {
      assert items[..n] == items;
    }
  }

  /** The table loads exactly when every item does. */
  lemma {:induction false} ManualMetadataLoads(items: seq<Metadata>)
    ensures ManualMetadata(items).Some? <==> forall j :: 0 <= j < |items| ==> Loadable(items[j])
  {
    if items != [] {
      var n := |items| - 1;
      var pre := items[..n];
      ManualMetadataLoads(pre);
      assert forall j :: 0 <= j < n ==> pre[j] == items[j];
    }
  }

  /** The table is keyed by the names of the items. */
  lemma {:induction false} ManualMetadataKeys(items: seq<Metadata>, key: MetaValue)
    requires ManualMetadata(items).Some?
    ensures key in ManualMetadata(items).value <==> exists j :: 0 <= j < |items| && ItemKey(items[j]) == Some(key)
  {
    if items != [] {
      var n := |items| - 1;
      var pre := items[..n];
      ManualMetadataKeys(pre, key);
      if exists j :: 0 <= j < |pre| && ItemKey(pre[j]) == Some(key) {
        var j :| 0 <= j < |pre| && ItemKey(pre[j]) == Some(key);
        assert items[j] == pre[j];
      }
      if exists j :: 0 <= j < |items| && ItemKey(items[j]) == Some(key) {
        var j :| 0 <= j < |items| && ItemKey(items[j]) == Some(key);
        if j < n {
          assert items[j] == pre[j];
        }
      }
    }
  }

  /** No later item has the same name as item `j`. */
  ghost predicate LastWithItsKey(items: seq<Metadata>, j: nat)
    requires j < |items|
  {
    forall l :: j < l < |items| ==> ItemKey(items[l]) != ItemKey(items[j])
  }

  /** Each name maps to the entry of the LAST item with that name: later
      items overwrite earlier ones. */
  lemma {:induction false} ManualMetadataLastWins(items: seq<Metadata>, j: nat)
    requires ManualMetadata(items).Some? && j < |items| && LastWithItsKey(items, j)
    ensures ItemKey(items[j]).Some? && Pais(items[j]).Some?
    ensures ItemKey(items[j]).value in ManualMetadata(items).value
    ensures ManualMetadata(items).value[ItemKey(items[j]).value] == ManualEntry(items[j], Pais(items[j]).value)
  {
    var n := |items| - 1;
    var pre := items[..n];
    assert Loadable(items[n]);
    if j < n {
      assert pre[j] == items[j];
      assert LastWithItsKey(pre, j) by {
        forall l | j < l < |pre| ensures ItemKey(pre[l]) != ItemKey(pre[j]) {
          assert pre[l] == items[l];
        }
      }
      ManualMetadataLastWins(pre, j);
      assert ItemKey(items[n]) != ItemKey(items[j]);
    }
  }
}
