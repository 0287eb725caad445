/** The image format a full-resolution export is written in, chosen from the filter the
    user picked in the save dialog (wsi_viewer.py, lines 1121-1141). */
module SaveFormat {

  datatype Format = Png | Jpeg | Bmp | Tiff

  /** The filters the save dialog offers, in the order it lists them. */
  const PngFilter := "PNG Files (*.png)"
  const JpegFilter := "JPEG Files (*.jpg)"
  const BmpFilter := "BMP Files (*.bmp)"
  const TiffFilter := "TIFF Files (*.tiff)"
  const AllFilter := "All Files (*)"

  /** `needle` sits in `hay` starting at index `i`. */
  predicate OccursAt(needle: string, hay: string, i: int) {
    0 <= i <= |hay| - |needle| && hay[i..i + |needle|] == needle
  }

  /** Python `needle in hay` on `str`: `needle` occurs somewhere in `hay`, case included. */
  predicate Occurs(needle: string, hay: string) {
    exists i | 0 <= i <= |hay| - |needle| :: OccursAt(needle, hay, i)
  }

  /** A needle holding a character the text lacks does not occur in it. */
  lemma AbsentCharacter(needle: string, hay: string, c: char)
    requires c in needle && c !in hay
    ensures !Occurs(needle, hay)
  {
    var k :| 0 <= k < |needle| && needle[k] == c;
    forall i | 0 <= i <= |hay| - |needle| ensures !OccursAt(needle, hay, i) {
      assert hay[i..i + |needle|][k] == hay[i + k];
    }
  }

  /** A text that starts with the needle contains it. */
  lemma LeadingOccurrence(needle: string, hay: string)
    requires needle <= hay
    ensures Occurs(needle, hay)
  {
    assert OccursAt(needle, hay, 0);
  }

  /** The name the cascade looks for in the filter. */
  function Name(f: Format): string {
    match f
    case Png => "PNG"
    case Jpeg => "JPEG"
    case Bmp => "BMP"
    case Tiff => "TIFF"
  }

  /** The order in which the cascade looks for the names: PNG first, TIFF last. */
  function Rank(f: Format): nat {
    match f
    case Png => 0
    case Jpeg => 1
    case Bmp => 2
    case Tiff => 3
  }

  /** Lines 1132-1141: the chosen format is the first one in cascade order that the filter names,
      and PNG when the filter names none. */
  function FormatFromFilter(filter: string): (f: Format)
    ensures Occurs(Name(f), filter) || (f == Png && forall g :: !Occurs(Name(g), filter))
    ensures forall g :: Occurs(Name(g), filter) ==> Rank(f) <= Rank(g)
  {
    if Occurs("PNG", filter) then Png
    else if Occurs("JPEG", filter) then Jpeg
    else if Occurs("BMP", filter) then Bmp
    else if Occurs("TIFF", filter) then Tiff
    else Png
  }

  /** A filter that names exactly one format selects that format. */
  lemma SoleNameSelects(filter: string, g: Format)
    requires Occurs(Name(g), filter)
    requires forall h :: h != g ==> !Occurs(Name(h), filter)
    ensures FormatFromFilter(filter) == g
  {
  }

  /** Each format filter of the dialog selects its own format. */
  lemma PngFilterSelectsPng()
    ensures FormatFromFilter(PngFilter) == Png
  {
    assert Occurs("PNG", PngFilter) by { LeadingOccurrence("PNG", PngFilter); }
  }

  lemma JpegFilterSelectsJpeg()
    ensures FormatFromFilter(JpegFilter) == Jpeg
  {
    assert !Occurs("PNG", JpegFilter) by { AbsentCharacter("PNG", JpegFilter, 'N'); }
    assert Occurs("JPEG", JpegFilter) by { LeadingOccurrence("JPEG", JpegFilter); }
  }

  lemma BmpFilterSelectsBmp()
    ensures FormatFromFilter(BmpFilter) == Bmp
  {
    assert !Occurs("PNG", BmpFilter) by { AbsentCharacter("PNG", BmpFilter, 'N'); }
    assert !Occurs("JPEG", BmpFilter) by { AbsentCharacter("JPEG", BmpFilter, 'J'); }
    assert Occurs("BMP", BmpFilter) by { LeadingOccurrence("BMP", BmpFilter); }
  }

  lemma TiffFilterSelectsTiff()
    ensures FormatFromFilter(TiffFilter) == Tiff
  {
    assert !Occurs("PNG", TiffFilter) by { AbsentCharacter("PNG", TiffFilter, 'N'); }
    assert !Occurs("JPEG", TiffFilter) by { AbsentCharacter("JPEG", TiffFilter, 'J'); }
    assert !Occurs("BMP", TiffFilter) by { AbsentCharacter("BMP", TiffFilter, 'B'); }
    assert Occurs("TIFF", TiffFilter) by { LeadingOccurrence("TIFF", TiffFilter); }
  }

  /** "All Files" falls back to PNG, whatever extension the chosen file name has. */
  lemma AllFilesFilterSelectsPng()
    ensures FormatFromFilter(AllFilter) == Png
  {
    assert !Occurs("PNG", AllFilter) by { AbsentCharacter("PNG", AllFilter, 'P'); }
    assert !Occurs("JPEG", AllFilter) by { AbsentCharacter("JPEG", AllFilter, 'J'); }
    assert !Occurs("BMP", AllFilter) by { AbsentCharacter("BMP", AllFilter, 'B'); }
    assert !Occurs("TIFF", AllFilter) by { AbsentCharacter("TIFF", AllFilter, 'T'); }
  }

  /** The match is on the capitalised name only and is case-sensitive: the lower-case
      extension a filter also carries does not select a format by itself. */
  lemma ExtensionAloneIsIgnored()
    ensures FormatFromFilter("(*.jpg)") == Png
  {
    assert !Occurs("PNG", "(*.jpg)") by { AbsentCharacter("PNG", "(*.jpg)", 'P'); }
    assert !Occurs("JPEG", "(*.jpg)") by { AbsentCharacter("JPEG", "(*.jpg)", 'J'); }
    assert !Occurs("BMP", "(*.jpg)") by { AbsentCharacter("BMP", "(*.jpg)", 'B'); }
    assert !Occurs("TIFF", "(*.jpg)") by { AbsentCharacter("TIFF", "(*.jpg)", 'T'); }
  }
}
