/**
 * The two lines of a NORAD two-line element set: reading the fixed columns of
 * each line into a record, and writing a record back as two lines, each ending
 * in its checksum digit.
 */
module Tle {
  import opened Wrappers
  import opened Decimal
  import opened Scaling
  import opened PyText
  import opened PyTextFacts
  import opened Alpha5
  import opened Checksum
  import opened ImpliedDecimal
  import opened Calendar
  import opened Epoch

  /** The fields parse_tle reads, in the order it reads them. */
  datatype Field =
    | CatalogField1 | ClassificationField | EpochField | MeanMotionDotField | MeanMotionDdotField
    | BstarField | TypeField | NumberField | ChecksumField
    | CatalogField2 | InclinationField | RaanField | EccentricityField | PerigeeField
    | MeanAnomalyField | MeanMotionField | RevField

  /** Why parse_tle raises: a field Python cannot read, or two catalog numbers that differ. */
  datatype TleError =
    | Unreadable(field: Field)
    | CatalogMismatch(line1: int, line2: int)

  /** The TLE record; angles in degrees, mean motion in revolutions per day. */
  datatype Tle = Tle(
    catalog: int,
    classification: char,
    intlDes: string,
    epoch: DateTime,
    meanMotionDot: real,   // Md
    meanMotionDdot: real,  // Mdd
    bstar: real,
    elsetType: int,
    number: int,
    inclination: real,     // i
    raan: real,            // r
    eccentricity: real,    // e
    perigee: real,         // p
    meanAnomaly: real,     // mu
    meanMotion: real,      // M
    rev: int)

  /** What parse_tle takes from line 1 (the checksum digit is read but not kept). */
  datatype Line1 = Line1(
    catalog: int, classification: char, intlDes: string, epoch: DateTime,
    meanMotionDot: real, meanMotionDdot: real, bstar: real, elsetType: int, number: int)

  /** What parse_tle takes from line 2. */
  datatype Line2 = Line2(
    catalog: int, inclination: real, raan: real, eccentricity: real,
    perigee: real, meanAnomaly: real, meanMotion: real, rev: int)

  // ---------------------------------------------------------------------------
  // Reading

  /** Python's s[i] for 0 <= i: IndexError past the end. */
  function At(s: string, i: nat): (r: Option<char>)
    ensures r.Some? <==> i < |s|
    ensures r.Some? ==> r.value == s[i]
  {
    if i < |s| then Some(s[i]) else None
  }

  function Need<T>(o: Option<T>, f: Field): Result<T, TleError>
  {
    OrError(o, Unreadable(f))
  }

  /** alpha5_to_number of a catalog field. */
  function ReadCatalog(s: string, f: Field): (r: Result<int, TleError>)
    ensures r.Ok? <==> Alpha5ToNumber(s).Ok?
    ensures r.Ok? ==> r.value == Alpha5ToNumber(s).value
  {
    match Alpha5ToNumber(s)
    case Ok(n) => Ok(n)
    case Err(_) => Err(Unreadable(f))
  }

  /** epoch_to_datetime of the epoch field. */
  function ReadEpoch(s: string): (r: Result<DateTime, TleError>)
    ensures r.Ok? <==> EpochToDateTime(s).Ok?
    ensures r.Ok? ==> r.value == EpochToDateTime(s).value
  {
    match EpochToDateTime(s)
    case Ok(t) => Ok(t)
    case Err(_) => Err(Unreadable(EpochField))
  }

  /** int(line[i]): the character, if the line has one, read as an integer. */
  function ReadChar(c: Option<char>, f: Field): Result<int, TleError>
  {
    var d :- Need(c, f);
    Need(ParseInt([d]), f)
  }

  /** The text parse_tle cuts from line 1 for the record; indexing a single column fails past the end. */
  datatype Fields1 = Fields1(
    catalog: string, classification: Option<char>, intlDes: string, epoch: string,
    meanMotionDot: string, meanMotionDdot: string, bstar: string, elsetType: Option<char>,
    number: string)

  /** The text parse_tle cuts from line 2. */
  datatype Fields2 = Fields2(
    catalog: string, inclination: string, raan: string, eccentricity: string,
    perigee: string, meanAnomaly: string, meanMotion: string, rev: string)

  function Line1Fields(l1: string): Fields1
  {
    Fields1(Slice(l1, 2, 7), At(l1, 7), Slice(l1, 9, 17), Slice(l1, 18, 32), Slice(l1, 33, 43),
            Slice(l1, 44, 52), Slice(l1, 53, 61), At(l1, 62), Slice(l1, 64, 68))
  }

  function Line2Fields(l2: string): Fields2
  {
    Fields2(Slice(l2, 2, 7), Slice(l2, 8, 16), Slice(l2, 17, 25), Slice(l2, 26, 33),
            Slice(l2, 34, 42), Slice(l2, 43, 51), Slice(l2, 52, 63), Slice(l2, 63, 68))
  }

  /** The conversions of line 1's fields, in the order Python evaluates them; the first to fail is reported. */
  function ReadLine1(f: Fields1): Result<Line1, TleError>
  {
    var catalog :- ReadCatalog(f.catalog, CatalogField1);
    var classification :- Need(f.classification, ClassificationField);
    var epoch :- ReadEpoch(f.epoch);
    var md :- Need(ParseFloat(f.meanMotionDot), MeanMotionDotField);
    var mdd :- Need(ScinotToFloat(f.meanMotionDdot), MeanMotionDdotField);
    var bstar :- Need(ScinotToFloat(f.bstar), BstarField);
    var elsetType :- ReadChar(f.elsetType, TypeField);
    var number :- Need(ParseInt(f.number), NumberField);
    Ok(Line1(catalog, classification, f.intlDes, epoch, md, mdd, bstar, elsetType, number))
  }

  /** The conversions of line 2's fields; checksum2 reads line 1 again, so column 68 of line 2 is never looked at. */
  function ReadLine2(f: Fields2): Result<Line2, TleError>
  {
    var catalog :- ReadCatalog(f.catalog, CatalogField2);
    var i :- Need(ParseFloat(f.inclination), InclinationField);
    var r :- Need(ParseFloat(f.raan), RaanField);
    var e :- Need(EToFloat(f.eccentricity), EccentricityField);
    var p :- Need(ParseFloat(f.perigee), PerigeeField);
    var mu :- Need(ParseFloat(f.meanAnomaly), MeanAnomalyField);
    var m :- Need(ParseFloat(f.meanMotion), MeanMotionField);
    var rev :- Need(ParseInt(f.rev), RevField);
    Ok(Line2(catalog, i, r, e, p, mu, m, rev))
  }

  /** The line-1 half of parse_tle: the record's fields, then int(line1[68]), whose value is not used. */
  function ParseLine1(l1: string): (r: Result<Line1, TleError>)
    ensures r.Ok? <==> ReadLine1(Line1Fields(l1)).Ok? && 68 < |l1| && IsDigit(l1[68])
    ensures ReadLine1(Line1Fields(l1)).Err? ==> r == ReadLine1(Line1Fields(l1))
    ensures ReadLine1(Line1Fields(l1)).Ok? && !(68 < |l1| && IsDigit(l1[68])) ==> r == Err(Unreadable(ChecksumField))
    ensures r.Ok? ==> Line1Read(l1, r.value)
  {
    var fields :- ReadLine1(Line1Fields(l1));
    ChecksumCharRead(l1);
    var checksum :- ReadChar(At(l1, 68), ChecksumField);
    Line1Values(l1, fields);
    Ok(fields)
  }

  /** int(line1[68]) succeeds exactly when line 1 has a digit in column 68. */
  lemma ChecksumCharRead(l1: string)
    ensures ReadChar(At(l1, 68), ChecksumField).Ok? <==> 68 < |l1| && IsDigit(l1[68])
    ensures ReadChar(At(l1, 68), ChecksumField).Err? ==> ReadChar(At(l1, 68), ChecksumField) == Err(Unreadable(ChecksumField))
  {
    if 68 < |l1| {
      ParseCharInt(l1[68]);
    }
  }

  lemma {:induction false} Line1Values(l1: string, v: Line1)
    requires ReadLine1(Line1Fields(l1)) == Ok(v) && 68 < |l1|
    ensures Line1Read(l1, v)
  {
    var f := Line1Fields(l1);
    FieldsValues(f, v);
    assert f.classification == Some(l1[7]) && f.elsetType == Some(l1[62]);
  }

  /** What a successful ReadLine1 takes from each field. */
  lemma {:induction false} FieldsValues(f: Fields1, v: Line1)
    requires ReadLine1(f) == Ok(v)
    ensures Alpha5ToNumber(f.catalog) == Ok(v.catalog) && f.classification == Some(v.classification)
    ensures v.intlDes == f.intlDes && EpochToDateTime(f.epoch) == Ok(v.epoch)
    ensures ParseFloat(f.meanMotionDot) == Some(v.meanMotionDot)
    ensures ScinotToFloat(f.meanMotionDdot) == Some(v.meanMotionDdot) && ScinotToFloat(f.bstar) == Some(v.bstar)
    ensures f.elsetType.Some? && ParseInt([f.elsetType.value]) == Some(v.elsetType)
    ensures ParseInt(f.number) == Some(v.number)
  {
    assert ReadCatalog(f.catalog, CatalogField1).Ok? && f.classification.Some? && ReadEpoch(f.epoch).Ok?;
    assert ParseFloat(f.meanMotionDot).Some? && ScinotToFloat(f.meanMotionDdot).Some? && ScinotToFloat(f.bstar).Some?;
    assert ReadChar(f.elsetType, TypeField).Ok? && ParseInt(f.number).Some?;
  }

  /** Each value of line 1 is what its conversion makes of its columns; the two single-column fields are read at their index. */
  predicate Line1Read(l1: string, v: Line1)
  {
    62 < |l1|
    && Alpha5ToNumber(Slice(l1, 2, 7)) == Ok(v.catalog)
    && v.classification == l1[7]
    && v.intlDes == Slice(l1, 9, 17)
    && EpochToDateTime(Slice(l1, 18, 32)) == Ok(v.epoch)
    && ParseFloat(Slice(l1, 33, 43)) == Some(v.meanMotionDot)
    && ScinotToFloat(Slice(l1, 44, 52)) == Some(v.meanMotionDdot)
    && ScinotToFloat(Slice(l1, 53, 61)) == Some(v.bstar)
    && ParseInt([l1[62]]) == Some(v.elsetType)
    && ParseInt(Slice(l1, 64, 68)) == Some(v.number)
  }

  /** The line-2 half of parse_tle. */
  function ParseLine2(l2: string): (r: Result<Line2, TleError>)
    ensures r.Ok? <==> Line2Readable(l2)
    ensures r.Ok? ==> Line2Read(l2, r.value)
    ensures r.Err? ==> r.error.Unreadable?
  {
    ReadLine2(Line2Fields(l2))
  }

  /** Every conversion of line 2 succeeds on its columns. */
  predicate Line2Readable(l2: string)
  {
    Alpha5ToNumber(Slice(l2, 2, 7)).Ok?
    && ParseFloat(Slice(l2, 8, 16)).Some?
    && ParseFloat(Slice(l2, 17, 25)).Some?
    && EToFloat(Slice(l2, 26, 33)).Some?
    && ParseFloat(Slice(l2, 34, 42)).Some?
    && ParseFloat(Slice(l2, 43, 51)).Some?
    && ParseFloat(Slice(l2, 52, 63)).Some?
    && ParseInt(Slice(l2, 63, 68)).Some?
  }

  /** Each value of line 2 is what its conversion makes of its columns. */
  predicate Line2Read(l2: string, v: Line2)
  {
    Alpha5ToNumber(Slice(l2, 2, 7)) == Ok(v.catalog)
    && ParseFloat(Slice(l2, 8, 16)) == Some(v.inclination)
    && ParseFloat(Slice(l2, 17, 25)) == Some(v.raan)
    && EToFloat(Slice(l2, 26, 33)) == Some(v.eccentricity)
    && ParseFloat(Slice(l2, 34, 42)) == Some(v.perigee)
    && ParseFloat(Slice(l2, 43, 51)) == Some(v.meanAnomaly)
    && ParseFloat(Slice(l2, 52, 63)) == Some(v.meanMotion)
    && ParseInt(Slice(l2, 63, 68)) == Some(v.rev)
  }

  /**
   * parse_tle, and TLE.from_lines, which builds the record from its result:
   * both lines are read in full before the catalog numbers are compared.
   */
  function ParseTle(l1: string, l2: string): (r: Result<Tle, TleError>)
    ensures r.Ok? <==> ParseLine1(l1).Ok? && ParseLine2(l2).Ok? && ParseLine1(l1).value.catalog == ParseLine2(l2).value.catalog
    ensures r.Ok? ==> r.value.catalog == ParseLine1(l1).value.catalog == ParseLine2(l2).value.catalog
    ensures ParseLine1(l1).Err? ==> r == Err(ParseLine1(l1).error)
    ensures ParseLine1(l1).Ok? && ParseLine2(l2).Err? ==> r == Err(ParseLine2(l2).error)
    ensures ParseLine1(l1).Ok? && ParseLine2(l2).Ok? && ParseLine1(l1).value.catalog != ParseLine2(l2).value.catalog
      ==> r == Err(CatalogMismatch(ParseLine1(l1).value.catalog, ParseLine2(l2).value.catalog))
  {
    var a :- ParseLine1(l1);
    var b :- ParseLine2(l2);
    if a.catalog != b.catalog then
      Err(CatalogMismatch(a.catalog, b.catalog))
    else
      Ok(Tle(a.catalog, a.classification, a.intlDes, a.epoch, a.meanMotionDot, a.meanMotionDdot,
             a.bstar, a.elsetType, a.number, b.inclination, b.raan, b.eccentricity, b.perigee,
             b.meanAnomaly, b.meanMotion, b.rev))
  }

  // ---------------------------------------------------------------------------
  // Writing

  /** f"{Md: .8f}" with its second character, the '0' before the point, cut out. */
  function MeanMotionDotText(md: real): string
  {
    var s := FormatFixed(md, 8, 0, true);
    assert |s| >= 1 by {
      PadLeftShape(s, 0);
    }
    [s[0]] + Slice(s, 2, |s|)
  }

  /** A line followed by str(compute_checksum(line)). */
  function WithChecksum(body: string): (line: string)
    ensures |line| == |body| + 1 && line[..|body|] == body && line[|body|] == ChecksumChar(body)
  {
    body + [ChecksumChar(body)]
  }

  /** The f-string of line 1 in to_lines, with the width given to the epoch field as a parameter. */
  function Line1Body(t: Tle, alpha5: string, epochWidth: nat): string
    requires Valid(t.epoch)
  {
    "1 " + PadRight(alpha5, 5) + [t.classification] + " " + t.intlDes + " "
    + PadRight(DateTimeToEpoch(t.epoch), epochWidth) + " " + MeanMotionDotText(t.meanMotionDot)
    + " " + PadRight(FloatToScinot(t.meanMotionDdot), 8) + " " + PadRight(FloatToScinot(t.bstar), 8)
    + " " + IntToString(t.elsetType) + " " + FormatInt(t.number, 4)
  }

  /** The f-string of line 2 in to_lines; the mean motion keeps the six decimals of the "f" format. */
  function Line2Body(t: Tle, alpha5: string): string
  {
    "2 " + PadRight(alpha5, 5) + " " + FormatFixed(t.inclination, 4, 8, false)
    + " " + FormatFixed(t.raan, 4, 8, false) + " " + PadRight(FloatToE(t.eccentricity), 7)
    + " " + FormatFixed(t.perigee, 4, 8, false) + " " + FormatFixed(t.meanAnomaly, 4, 8, false)
    + " " + FormatFixed(t.meanMotion, 6, 11, false) + FormatInt(t.rev, 5)
  }

  /** to_lines with the given epoch width; KeyError from number_to_alpha5 for catalog numbers of 340000 and up. */
  function RenderLines(t: Tle, epochWidth: nat): (r: Result<(string, string), Alpha5Error>)
    requires Valid(t.epoch)
    ensures r.Ok? <==> t.catalog < 340000
    ensures r.Err? ==> r.error == NoSymbol(t.catalog / 10000)
    ensures r.Ok? ==> |r.value.0| > 0 && r.value.0[|r.value.0| - 1] == ChecksumChar(r.value.0[..|r.value.0| - 1])
    ensures r.Ok? ==> |r.value.1| > 0 && r.value.1[|r.value.1| - 1] == ChecksumChar(r.value.1[..|r.value.1| - 1])
  {
    var alpha5 :- NumberToAlpha5(t.catalog);
    Ok((WithChecksum(Line1Body(t, alpha5, epochWidth)), WithChecksum(Line2Body(t, alpha5))))
  }

  /** TLE.to_lines as written: the 14-character epoch is padded to 15. */
  function ToLinesAsWritten(t: Tle): Result<(string, string), Alpha5Error>
    requires Valid(t.epoch)
  {
    RenderLines(t, 15)
  }

  /** TLE.to_lines with the epoch in its own 14 columns, where parse_tle looks for it. */
  function ToLines(t: Tle): Result<(string, string), Alpha5Error>
    requires Valid(t.epoch)
  {
    RenderLines(t, 14)
  }

  /** TLE.alpha5. */
  function Alpha5Of(t: Tle): (r: Result<string, Alpha5Error>)
    ensures r.Ok? <==> t.catalog < 340000
    ensures r.Err? ==> r.error == NoSymbol(t.catalog / 10000)
    ensures 10000 <= t.catalog < 340000 ==> |r.value| == 5 && Alpha5ToNumber(r.value) == Ok(t.catalog)
  {
    if 10000 <= t.catalog < 340000 then
      Alpha5RoundTrip(t.catalog);
      NumberToAlpha5(t.catalog)
    else
      NumberToAlpha5(t.catalog)
  }
}
