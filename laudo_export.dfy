/**
 * The arithmetic of `handleGeneratePdf` in LaudoForm.js: the PDF's file name
 * and where the rasterised print template is placed on the A4 page.
 */
module LaudoExport {
  import opened Wrappers
  import opened Text

  const FileNamePrefix := "laudo_"
  const FileNameSuffix := ".pdf"
  const FallbackName := "paciente"

  /**
   * `` `laudo_${nome.replace(/ /g, '_') || 'paciente'}.pdf` ``: every space
   * (U+0020 only) becomes an underscore; the fallback is used when that
   * gives the empty string, which happens exactly when `nome` is empty.
   */
  function FileName(nome: string): (f: string)
    ensures nome != "" ==> f == FileNamePrefix + ReplaceAll(nome, ' ', '_') + FileNameSuffix
    ensures nome == "" ==> f == "laudo_paciente.pdf"
    ensures ' ' !in f
  {
    var sanitized := ReplaceAll(nome, ' ', '_');
    FileNamePrefix + (if sanitized != "" then sanitized else FallbackName) + FileNameSuffix
  }

  /**
   * The fallback file name comes out for the empty name and, since "paciente"
   * has neither spaces nor underscores, for the name "paciente" itself; for
   * no other name.
   */
  lemma FallbackFileName(nome: string)
    ensures FileName(nome) == FileNamePrefix + FallbackName + FileNameSuffix <==> nome == "" || nome == FallbackName
  {
    ReplaceAllAbsent(FallbackName, ' ', '_');
    if nome != "" && FileName(nome) == FileNamePrefix + FallbackName + FileNameSuffix {
      FallbackOnlyForItself(nome);
    }
  }

  /** A non-empty name that yields the fallback file name is the fallback name. */
  lemma FallbackOnlyForItself(nome: string)
    requires nome != "" && FileName(nome) == FileNamePrefix + FallbackName + FileNameSuffix
    ensures nome == FallbackName
  {
    var sanitized := ReplaceAll(nome, ' ', '_');
    SameFrame(FileNamePrefix, sanitized, FallbackName, FileNameSuffix);
    assert '_' !in FallbackName;
    forall i | 0 <= i < |nome| ensures nome[i] == FallbackName[i] {
      assert sanitized[i] == FallbackName[i];
    }
  }

  /** Two texts framed by the same prefix and suffix are equal if the framed texts are. */
  lemma SameFrame(prefix: string, a: string, b: string, suffix: string)
    requires prefix + a + suffix == prefix + b + suffix
    ensures a == b
  {
    var x := prefix + a + suffix;
    var y := prefix + b + suffix;
    assert |a| == |b|;
    assert x[|prefix|..|prefix| + |a|] == a;
    assert y[|prefix|..|prefix| + |b|] == b;
  }

  /** Two space-separated words are joined by an underscore. */
  lemma FileNameOfFullName(first: string, last: string)
    requires first != "" && ' ' !in first && ' ' !in last
    ensures FileName(first + " " + last) == FileNamePrefix + first + "_" + last + FileNameSuffix
  {
    var nome := first + " " + last;
    var sanitized := ReplaceAll(nome, ' ', '_');
    assert sanitized == first + "_" + last by {
      forall i | 0 <= i < |nome| ensures sanitized[i] == (first + "_" + last)[i] {
        if i < |first| { assert nome[i] == first[i]; }
        else if i > |first| { assert nome[i] == last[i - |first| - 1]; }
      }
    }
  }

  /** A name of spaces alone becomes underscores, not the fallback. */
  lemma FileNameOfBlankName(n: nat)
    requires n > 0
    ensures FileName(seq(n, _ => ' ')) == FileNamePrefix + seq(n, _ => '_') + FileNameSuffix
  {
    var sanitized := ReplaceAll(seq(n, _ => ' '), ' ', '_');
    assert sanitized == seq(n, _ => '_');
  }

  // ------------------------------------------------------------ page geometry

  const PageWidth: real := 210.0   // A4 width in mm
  const PageHeight: real := 297.0  // A4 height in mm
  const Margin: real := 15.0       // mm on every side

  /**
   * The raster html2canvas returns, in pixels. It is taken at `scale: 3`, three
   * pixels per CSS pixel of the template; only its aspect ratio reaches the page.
   */
  datatype Canvas = Canvas(width: nat, height: nat)

  /**
   * Arguments of `pdf.addImage`: position and size in mm. `height` is None
   * for a zero-width canvas, where JavaScript's division gives NaN or Infinity.
   */
  datatype Placement = Placement(x: real, y: real, width: real, height: Option<real>)

  /**
   * The image fills the printable width, starts at the top-left margin and
   * keeps the canvas's aspect ratio.
   */
  function ImagePlacement(c: Canvas): (p: Placement)
    ensures p.x == Margin && p.y == Margin
    ensures p.x + p.width + Margin == PageWidth && p.width == 180.0
    ensures p.height.Some? <==> c.width > 0
    ensures p.height.Some? ==> p.height.value * c.width as real == c.height as real * p.width
    ensures p.height.Some? ==> p.height.value >= 0.0
  {
    var imgWidth := PageWidth - Margin * 2.0;
    Placement(Margin, Margin, imgWidth,
      if c.width > 0 then Some((c.height as real * imgWidth) / c.width as real) else None)
  }

  /**
   * The image ends above the bottom margin of the first page exactly when the
   * canvas is at most 267/180 times as tall as it is wide; anything taller
   * runs off the page, since nothing adds a second page.
   */
  lemma FitsFirstPage(c: Canvas)
    requires c.width > 0
    ensures ImagePlacement(c).y + ImagePlacement(c).height.value <= PageHeight - Margin
      <==> 180.0 * c.height as real <= 267.0 * c.width as real
  {
    var p := ImagePlacement(c);
    var h := p.height.value;
    var w := c.width as real;
    var tall := c.height as real;
    assert p.y == 15.0 && p.width == 180.0;
    ScaleByPositive(h, 267.0, w, 180.0 * tall, 267.0 * w);
  }

  /** Multiplying both sides by a positive factor keeps the order. */
  lemma ScaleByPositive(a: real, b: real, w: real, aw: real, bw: real)
    requires w > 0.0 && aw == a * w && bw == b * w
    ensures a <= b <==> aw <= bw
  {
    if a <= b {
      assert (b - a) * w >= 0.0;
    } else {
      assert (a - b) * w > 0.0;
    }
  }
}
