// The STL filename parser of src/modules/engineering/services/stlService.ts:
// `<partNumber>.stl` or `<partNumber>_x<N>.stl` becomes a part number and a
// quantity, or an invalid result saying what was wrong. Of the upload helper
// of the same file only the storage path is modelled; the blob-store call is a
// parameter of the operations that upload.

module StlService {
  import opened Common

  /** The three error messages the parser produces, by kind: an empty name,
      an empty part number, and a quantity outside 1..1000 (which the message
      quotes). */
  datatype ParseError =
    | EmptyFileName
    | EmptyPartNumber
    | QuantityOutOfRange(quantity: nat)

  /** `ParsedFileInfo`; `storageBoxes` is only filled in by the import preview. */
  datatype ParsedFileInfo = ParsedFileInfo(
    originalFileName: string,
    partNumber: string,
    quantity: nat,
    isValid: bool,
    errorMessage: Option<ParseError>,
    storageBoxes: Option<seq<string>>)

  const MaxQuantity: nat := 1000

  // ---------------------------------------------------------------------------
  // fileName.replace(/\.(stl|STL)$/, '')

  function StripStlExtension(fileName: string): (stem: string)
  {
    var n := |fileName|;
    if n >= 4 && (fileName[n - 4..] == ".stl" || fileName[n - 4..] == ".STL")
    then fileName[..n - 4]
    else fileName
  }

  /** Only a trailing `.stl` or `.STL` goes; any other spelling of the
      extension, such as `.Stl`, stays part of the stem. */
  lemma StripStlSpec(name: string)
    ensures StripStlExtension(name + ".stl") == name
    ensures StripStlExtension(name + ".STL") == name
    ensures StripStlExtension(name + ".Stl") == name + ".Stl"
    ensures var stem := StripStlExtension(name);
      stem == name || stem + ".stl" == name || stem + ".STL" == name
  {
    var n := name + ".Stl";
    assert n[|n| - 4..] == ".Stl";
    assert (name + ".stl")[..|name|] == name;
    assert (name + ".STL")[..|name|] == name;
  }

  // ---------------------------------------------------------------------------
  // /^(.+?)_[xX](\d+)$/

  /** The groups of a match of `^(.+?)_[xX](\d+)$`. */
  datatype QuantityMatch = QuantityMatch(prefix: string, digits: string)

  /** `stem` matches the pattern with first group `prefix` and second group
      `digits`. `.` matches anything but a line terminator. */
  predicate IsQuantityMatch(stem: string, prefix: string, digits: string)
  {
    && |prefix| >= 1
    && (forall i :: 0 <= i < |prefix| ==> !IsLineTerminator(prefix[i]))
    && |digits| >= 1 && AllDigits(digits)
    && |stem| == |prefix| + 2 + |digits|
    && stem[..|prefix|] == prefix
    && stem[|prefix|] == '_'
    && (stem[|prefix| + 1] == 'x' || stem[|prefix| + 1] == 'X')
    && stem[|prefix| + 2..] == digits
  }

  /** Length of the run of decimal digits that ends `s`. */
  function TrailingDigitCount(s: string): (k: nat)
    ensures k <= |s|
    ensures forall i :: |s| - k <= i < |s| ==> IsAsciiDigit(s[i])
    ensures k < |s| ==> !IsAsciiDigit(s[|s| - k - 1])
  {
    if s != [] && IsAsciiDigit(s[|s| - 1]) then 1 + TrailingDigitCount(s[..|s| - 1]) else 0
  }

  /** Runs the pattern from the end: the digits are the trailing digit run,
      the two characters before them must be `_x` or `_X`, and whatever is
      left must be a non-empty run without line terminators. */
  function MatchQuantityPattern(stem: string): (m: Option<QuantityMatch>)
  {
    var k := TrailingDigitCount(stem);
    var n := |stem| - k - 2;
    if k >= 1 && n >= 1 && stem[n] == '_' && (stem[n + 1] == 'x' || stem[n + 1] == 'X')
       && (forall i :: 0 <= i < n ==> !IsLineTerminator(stem[i]))
    then Some(QuantityMatch(stem[..n], stem[n + 2..]))
    else None
  }

  lemma TrailingDigitCountIs(s: string, j: nat)
    requires j <= |s|
    requires forall i :: |s| - j <= i < |s| ==> IsAsciiDigit(s[i])
    requires j < |s| ==> !IsAsciiDigit(s[|s| - j - 1])
    ensures TrailingDigitCount(s) == j
  {
  }

  /** The scan finds a match exactly when the regular expression matches, and
      then with the same two groups; the match is unique. */
  lemma MatchIffRegex(stem: string, prefix: string, digits: string)
    ensures MatchQuantityPattern(stem) == Some(QuantityMatch(prefix, digits))
            <==> IsQuantityMatch(stem, prefix, digits)
  {
    if IsQuantityMatch(stem, prefix, digits) {
      var p := |prefix|;
      forall i | |stem| - |digits| <= i < |stem|
        ensures IsAsciiDigit(stem[i])
      {
        assert stem[i] == digits[i - p - 2];
      }
      assert !IsAsciiDigit(stem[p + 1]);
      TrailingDigitCountIs(stem, |digits|);
      forall i | 0 <= i < p
        ensures !IsLineTerminator(stem[i])
      {
        assert stem[i] == prefix[i];
      }
    }
  }

  /** No match at all: no split of `stem` fits the pattern. */
  lemma NoMatchMeansNoSplit(stem: string)
    requires MatchQuantityPattern(stem).None?
    ensures forall p, d :: !IsQuantityMatch(stem, p, d)
  {
    forall p, d
      ensures !IsQuantityMatch(stem, p, d)
    {
      MatchIffRegex(stem, p, d);
    }
  }

  // ---------------------------------------------------------------------------
  // parseFileName

  function Invalid(fileName: string, partNumber: string, error: ParseError): ParsedFileInfo
  {
    ParsedFileInfo(fileName, partNumber, 1, false, Some(error), None)
  }

  function Valid(fileName: string, partNumber: string, quantity: nat): ParsedFileInfo
  {
    ParsedFileInfo(fileName, partNumber, quantity, true, None, None)
  }

  /** `parseFileName(fileName)`: strip the extension, then either the
      `_x<N>` form or a bare part number. */
  function ParseFileName(fileName: string): (r: ParsedFileInfo)
    ensures r.originalFileName == fileName
    ensures r.storageBoxes.None?
    ensures 1 <= r.quantity
    ensures r.isValid <==> r.errorMessage.None?
    ensures r.isValid ==> r.partNumber != [] && r.quantity <= MaxQuantity
  {
    var stem := StripStlExtension(fileName);
    if stem == [] then
      Invalid(fileName, "", EmptyFileName)
    else
      match MatchQuantityPattern(stem)
      case Some(m) =>
        var partNumber := Trim(m.prefix);
        var quantity := DecimalValue(m.digits);
        if partNumber == [] then
          Invalid(fileName, "", EmptyPartNumber)
        else if quantity <= 0 || quantity > MaxQuantity then
          Invalid(fileName, partNumber, QuantityOutOfRange(quantity))
        else
          Valid(fileName, partNumber, quantity)
      case None =>
        var partNumber := Trim(stem);
        if partNumber == [] then Invalid(fileName, "", EmptyPartNumber)
        else Valid(fileName, partNumber, 1)
  }

  /** Nothing left once the extension is gone: invalid, empty part number,
      quantity 1. */
  lemma ParseEmptyStem(fileName: string)
    requires StripStlExtension(fileName) == []
    ensures ParseFileName(fileName) == ParsedFileInfo(fileName, "", 1, false, Some(EmptyFileName), None)
  {
  }

  /** A stem of the form `<prefix>_x<digits>`: the part number is the trimmed
      prefix and the quantity the digits' value; an empty part number or a
      quantity outside 1..1000 is invalid, the latter keeping the part number
      and falling back to quantity 1. */
  lemma ParseWithQuantity(fileName: string, prefix: string, digits: string)
    requires IsQuantityMatch(StripStlExtension(fileName), prefix, digits)
    ensures var r, pn, q := ParseFileName(fileName), Trim(prefix), DecimalValue(digits);
      && (pn == [] ==> r == Invalid(fileName, "", EmptyPartNumber))
      && (pn != [] && (q == 0 || q > MaxQuantity) ==>
            r == Invalid(fileName, pn, QuantityOutOfRange(q)) && r.quantity == 1)
      && (pn != [] && 1 <= q <= MaxQuantity ==> r == Valid(fileName, pn, q))
  {
    MatchIffRegex(StripStlExtension(fileName), prefix, digits);
  }

  /** A stem with no `_x<N>` suffix: the whole trimmed stem is the part
      number, the quantity is 1, and the result is valid exactly when the
      trimmed stem is not empty. */
  lemma ParseWithoutQuantity(fileName: string)
    requires StripStlExtension(fileName) != []
    requires forall p, d :: !IsQuantityMatch(StripStlExtension(fileName), p, d)
    ensures var r, pn := ParseFileName(fileName), Trim(StripStlExtension(fileName));
      && r.quantity == 1
      && r.partNumber == pn
      && (r.isValid <==> pn != [])
  {
    var stem := StripStlExtension(fileName);
    if m :| MatchQuantityPattern(stem) == Some(m) {
      MatchIffRegex(stem, m.prefix, m.digits);
    }
  }

  /** A part number without surrounding white space or line breaks. */
  predicate IsCleanPartNumber(pn: string)
  {
    && pn != []
    && !IsJsWhitespace(pn[0]) && !IsJsWhitespace(pn[|pn| - 1])
    && forall i :: 0 <= i < |pn| ==> !IsLineTerminator(pn[i])
  }

  /** Writing `<pn>_x<q>.stl` and parsing it gives `pn` and `q` back. */
  lemma {:induction false} FormatThenParse(pn: string, q: nat)
    requires IsCleanPartNumber(pn)
    requires 1 <= q <= MaxQuantity
    ensures var name := pn + "_x" + Decimal(q) + ".stl";
      ParseFileName(name) == Valid(name, pn, q)
  {
    var name := pn + "_x" + Decimal(q) + ".stl";
    var stem := pn + "_x" + Decimal(q);
    StripStlSpec(stem);
    assert StripStlExtension(name) == stem;
    assert IsQuantityMatch(stem, pn, Decimal(q)) by {
      assert stem[..|pn|] == pn;
      assert stem[|pn| + 2..] == Decimal(q);
    }
    ParseWithQuantity(name, pn, Decimal(q));
    TrimOfTrimmed(pn);
    DecimalRoundTrip(q);
  }

  /** Writing `<pn>.stl` for a part number that does not itself end in
      `_x<digits>` and parsing it gives `pn` with quantity 1. */
  lemma FormatPlainThenParse(pn: string)
    requires IsCleanPartNumber(pn)
    requires MatchQuantityPattern(pn).None?
    ensures ParseFileName(pn + ".stl") == Valid(pn + ".stl", pn, 1)
  {
    StripStlSpec(pn);
    TrimOfTrimmed(pn);
  }

  // ---------------------------------------------------------------------------
  // parseFileNames / filterValidParsedInfos

  /** `fileNames.map(parseFileName)` */
  function ParseFileNames(fileNames: seq<string>): (r: seq<ParsedFileInfo>)
    ensures |r| == |fileNames|
    ensures forall i :: 0 <= i < |fileNames| ==> r[i] == ParseFileName(fileNames[i])
  {
    if fileNames == [] then []
    else [ParseFileName(fileNames[0])] + ParseFileNames(fileNames[1..])
  }

  /** `parsedInfos.filter(info => info.isValid)` */
  function FilterValidParsedInfos(infos: seq<ParsedFileInfo>): (r: seq<ParsedFileInfo>)
    ensures |r| <= |infos|
    ensures forall i :: 0 <= i < |r| ==> r[i].isValid && r[i] in infos
    ensures forall x :: x in infos && x.isValid ==> x in r
  {
    if infos == [] then []
    else (if infos[0].isValid then [infos[0]] else []) + FilterValidParsedInfos(infos[1..])
  }

  /** Filtering distributes over concatenation, so the filter keeps the valid
      entries in their original order and drops the rest. */
  lemma {:induction false} FilterAppend(a: seq<ParsedFileInfo>, b: seq<ParsedFileInfo>)
    ensures FilterValidParsedInfos(a + b) == FilterValidParsedInfos(a) + FilterValidParsedInfos(b)
  {
    if a != [] {
      assert (a + b)[1..] == a[1..] + b;
      FilterAppend(a[1..], b);
    } else {
      assert a + b == b;
    }
  }

  /** The i-th valid entry: for a valid `infos[i]`, its place in the filtered
      list is the number of valid entries before it. */
  lemma FilterIndex(infos: seq<ParsedFileInfo>, i: nat)
    requires i < |infos| && infos[i].isValid
    ensures |FilterValidParsedInfos(infos[..i])| < |FilterValidParsedInfos(infos)|
    ensures FilterValidParsedInfos(infos)[|FilterValidParsedInfos(infos[..i])|] == infos[i]
  {
    assert infos == infos[..i] + ([infos[i]] + infos[i + 1..]);
    FilterAppend(infos[..i], [infos[i]] + infos[i + 1..]);
    FilterAppend([infos[i]], infos[i + 1..]);
  }

  // ---------------------------------------------------------------------------
  // uploadStlFile

  /** The blob store: given a storage path it answers the download URL of the
      uploaded file, or why the upload failed. */
  type Uploader = string -> Result<string, string>

  /** `projects/${projectId}/stl/${partNumber}_${timestamp}.stl` */
  function StoragePath(projectId: IdArg, partNumber: string, time: Timestamp): string
  {
    "projects/" + IdText(projectId) + "/stl/" + partNumber + "_" + Decimal(time) + ".stl"
  }

  /** Uploads of one part at different times go to different paths, so a new
      upload never overwrites an earlier file. */
  lemma StoragePathPerTime(projectId: IdArg, partNumber: string, t1: Timestamp, t2: Timestamp)
    ensures StoragePath(projectId, partNumber, t1) == StoragePath(projectId, partNumber, t2) ==> t1 == t2
  {
    var prefix := "projects/" + IdText(projectId) + "/stl/" + partNumber + "_";
    var p1 := StoragePath(projectId, partNumber, t1);
    var p2 := StoragePath(projectId, partNumber, t2);
    assert p1 == prefix + Decimal(t1) + ".stl";
    assert p2 == prefix + Decimal(t2) + ".stl";
    if p1 == p2 {
      assert |Decimal(t1)| == |Decimal(t2)|;
      assert p1[|prefix|..|p1| - 4] == Decimal(t1);
      assert p2[|prefix|..|p2| - 4] == Decimal(t2);
      DecimalInjective(t1, t2);
    }
  }
}
