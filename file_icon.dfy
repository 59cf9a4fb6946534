/** The icon the file views draw for a row: folders first, then an ordered
    chain of tests on the lower-cased MIME type, with a generic file icon last. */
module FileIcon {
  import opened Text

  datatype Icon =
    | Folder | Image | Video | Audio | Pdf | Document | Spreadsheet | Presentation | Archive | Code | GenericFile

  /** The test each icon of the chain applies to a lower-cased MIME type. */
  predicate Matches(icon: Icon, m: string) {
    match icon
    case Image => StartsWith(m, "image/")
    case Video => StartsWith(m, "video/")
    case Audio => StartsWith(m, "audio/")
    case Pdf => m == "application/pdf"
    case Document => Contains(m, "document") || Contains(m, "msword") || Contains(m, "text/")
    case Spreadsheet => Contains(m, "spreadsheet") || Contains(m, "excel")
    case Presentation => Contains(m, "presentation") || Contains(m, "powerpoint")
    case Archive => Contains(m, "zip") || Contains(m, "rar") || Contains(m, "tar") || Contains(m, "7z")
    case Code =>
      || Contains(m, "javascript") || Contains(m, "typescript") || Contains(m, "json")
      || Contains(m, "xml") || Contains(m, "html") || Contains(m, "css")
    case Folder => false
    case GenericFile => false
  }

  /** The order in which the tests are tried. */
  const Chain: seq<Icon> := [Image, Video, Audio, Pdf, Document, Spreadsheet, Presentation, Archive, Code]

  /** Reference reading of a chain from position `i` on: the first icon whose
      test passes, else the generic one. */
  function FirstMatch(chain: seq<Icon>, m: string, i: nat): Icon
    decreases |chain| - i
  {
    if i >= |chain| then GenericFile
    else if Matches(chain[i], m) then chain[i]
    else FirstMatch(chain, m, i + 1)
  }

  /** FileIcon's choice for a row with MIME type `mimeType`. */
  function IconFor(mimeType: string, isFolder: bool): (r: Icon)
    ensures isFolder ==> r == Folder
    ensures !isFolder ==> r == Classify(Lower(mimeType))
  {
    if isFolder then Folder else Classify(Lower(mimeType))
  }

  /** The if-chain on the lower-cased type. */
  function Classify(m: string): Icon {
    if StartsWith(m, "image/") then Image
    else if StartsWith(m, "video/") then Video
    else if StartsWith(m, "audio/") then Audio
    else if m == "application/pdf" then Pdf
    else if Contains(m, "document") || Contains(m, "msword") || Contains(m, "text/") then Document
    else if Contains(m, "spreadsheet") || Contains(m, "excel") then Spreadsheet
    else if Contains(m, "presentation") || Contains(m, "powerpoint") then Presentation
    else if Contains(m, "zip") || Contains(m, "rar") || Contains(m, "tar") || Contains(m, "7z") then Archive
    else if Contains(m, "javascript") || Contains(m, "typescript") || Contains(m, "json")
         || Contains(m, "xml") || Contains(m, "html") || Contains(m, "css") then Code
    else GenericFile
  }

  /** The if-chain is the first-match reading of `Chain`. */
  lemma ClassifyIsFirstMatch(m: string)
    ensures Classify(m) == FirstMatch(Chain, m, 0)
  {
    assert FirstMatch(Chain, m, 8) == (if Matches(Code, m) then Code else GenericFile);
    assert FirstMatch(Chain, m, 7) == (if Matches(Archive, m) then Archive else FirstMatch(Chain, m, 8));
    assert FirstMatch(Chain, m, 6) == (if Matches(Presentation, m) then Presentation else FirstMatch(Chain, m, 7));
    assert FirstMatch(Chain, m, 5) == (if Matches(Spreadsheet, m) then Spreadsheet else FirstMatch(Chain, m, 6));
    assert FirstMatch(Chain, m, 4) == (if Matches(Document, m) then Document else FirstMatch(Chain, m, 5));
    assert FirstMatch(Chain, m, 3) == (if Matches(Pdf, m) then Pdf else FirstMatch(Chain, m, 4));
    assert FirstMatch(Chain, m, 2) == (if Matches(Audio, m) then Audio else FirstMatch(Chain, m, 3));
    assert FirstMatch(Chain, m, 1) == (if Matches(Video, m) then Video else FirstMatch(Chain, m, 2));
  }

  /** The first match from `i` is an icon whose test passes, with no earlier test
      passing; the generic icon comes exactly when no test from `i` on passes. */
  lemma {:induction false} FirstMatchIsFirst(chain: seq<Icon>, m: string, i: nat)
    requires GenericFile !in chain
    ensures var r := FirstMatch(chain, m, i);
      && (r == GenericFile <==> forall k :: i <= k < |chain| ==> !Matches(chain[k], m))
      && (r != GenericFile ==> exists k :: i <= k < |chain| && chain[k] == r && Matches(r, m)
                                  && forall j :: i <= j < k ==> !Matches(chain[j], m))
    decreases |chain| - i
  {
    if i < |chain| {
      FirstMatchIsFirst(chain, m, i + 1);
      if Matches(chain[i], m) {
        assert chain[i] in chain;
      }
    }
  }

  /** A file gets the icon of the first test its lower-cased type passes, and the
      generic icon exactly when it passes none; so every type has an icon. */
  lemma IconIsFirstMatch(mimeType: string)
    ensures var r := IconFor(mimeType, false); var m := Lower(mimeType);
      && (r == GenericFile <==> forall i :: 0 <= i < |Chain| ==> !Matches(Chain[i], m))
      && (r != GenericFile ==> exists i :: 0 <= i < |Chain| && Chain[i] == r && Matches(r, m)
                                  && forall j :: 0 <= j < i ==> !Matches(Chain[j], m))
  {
    ClassifyIsFirstMatch(Lower(mimeType));
    FirstMatchIsFirst(Chain, Lower(mimeType), 0);
  }

  /** The folder flag wins over any type. */
  lemma FolderWins(mimeType: string)
    ensures IconFor(mimeType, true) == Folder
  {
  }

  /** Case never matters: the type is lower-cased before any test. */
  lemma CaseInsensitive(mimeType: string, isFolder: bool)
    ensures IconFor(Lower(mimeType), isFolder) == IconFor(mimeType, isFolder)
  {
    LowerIdempotent(mimeType);
  }

  /** A string containing `p` contains each character of `p`. */
  lemma ContainsHasChar(s: string, p: string, j: nat)
    requires j < |p| && Contains(s, p)
    ensures p[j] in s
  {
    ContainsIff(s, p);
    var i: nat :| WindowAt(s, p, i);
    assert s[i + j] == s[i..i + |p|][j];
  }

  /** A `text/` type is drawn as a document unless a media prefix matched first;
      in particular `text/javascript` and `text/html` never get the code icon. */
  lemma TextIsNeverCode(mimeType: string)
    requires Contains(Lower(mimeType), "text/")
    ensures IconFor(mimeType, false) in {Image, Video, Audio, Document}
  {
    ContainsHasChar(Lower(mimeType), "text/", 1);
    assert 'e' !in "application/pdf";
  }

  /** Any type mentioning "document" outside the media prefixes is a document,
      even when it also names a spreadsheet or a presentation. */
  lemma DocumentWins(m: string)
    requires Contains(m, "document")
    requires !StartsWith(m, "image/") && !StartsWith(m, "video/") && !StartsWith(m, "audio/")
    ensures Classify(m) == Document
  {
    ContainsHasChar(m, "document", 3);
    assert 'u' !in "application/pdf";
  }

  /** Every Office Open XML type (Word, Excel and PowerPoint files alike) is drawn
      as a document, never as a spreadsheet or a presentation. */
  lemma OfficeOpenXmlIsDocument(t: string)
    requires StartsWith(Lower(t), "application/vnd.openxmlformats-officedocument.")
    ensures IconFor(t, false) == Document
  {
    var a, b := "application/vnd.openxmlformats-office", "document.";
    var m := Lower(t);
    assert m[..46] == a + b;
    assert |a| == 37;
    assert m[37..45] == (a + b)[37..45] == b[..8] == "document";
    assert WindowAt(m, "document", 37);
    ContainsAt(m, "document", 37);
    assert m[..6] == (a + b)[..6] == a[..6] == "applic";
    DocumentWins(m);
  }
}
