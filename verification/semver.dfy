/**
 * The three-field version value of `src/semver/mod.rs`: parsed from
 * `X.Y.Z`, rendered back, and bumped one field at a time. Parsing follows
 * the normal-version form of Semantic Versioning 2.0.0 (item 2) loosely:
 * leading zeros and a leading `+` are accepted because each field goes
 * through `usize`'s own parser.
 */
module SemVer {
  import opened Results
  import opened Numerals
  import opened Strings

  datatype SemanticVersion = SemanticVersion(major: usize, minor: usize, patch: usize)

  /** The two refusals of `new`; both carry the same message prefix in the source. */
  datatype ParseError = TooFewParts | TooManyParts

  /** Number of `.` characters in `s`. */
  function Dots(s: string): nat {
    multiset(s)['.']
  }

  /** `format!("{}.{}.{}", major, minor, patch)` */
  function Render(v: SemanticVersion): (r: string)
    ensures Split(r, '.') == [Decimal(v.major), Decimal(v.minor), Decimal(v.patch)]
  {
    DecimalHasNoDot(v.major);
    DecimalHasNoDot(v.minor);
    DecimalHasNoDot(v.patch);
    SplitThree(Decimal(v.major), Decimal(v.minor), Decimal(v.patch), '.');
    Decimal(v.major) + "." + Decimal(v.minor) + "." + Decimal(v.patch)
  }

  /**
   * The panic-free inputs of `new`: whenever there are at least three
   * parts, the first three each parse as `usize` (the `unwrap` calls).
   * Parts after the third are never parsed.
   */
  predicate LeadingPartsParse(parts: seq<string>) {
    |parts| >= 3 ==>
      ParseUsize(parts[0]).Some? && ParseUsize(parts[1]).Some? && ParseUsize(parts[2]).Some?
  }

  /** `SemanticVersion::new` */
  function New(s: string): (r: Result<SemanticVersion, ParseError>)
    requires LeadingPartsParse(Split(s, '.'))
    ensures r == Err(TooFewParts) <==> Dots(s) < 2
    ensures r == Err(TooManyParts) <==> Dots(s) > 2
    ensures r.Ok? <==> Dots(s) == 2
    ensures r.Ok? ==>
      var parts := Split(s, '.');
      && ParseUsize(parts[0]) == Some(r.value.major)
      && ParseUsize(parts[1]) == Some(r.value.minor)
      && ParseUsize(parts[2]) == Some(r.value.patch)
  {
    var parts := Split(s, '.');
    if |parts| < 3 then Err(TooFewParts)
    else
      var version := SemanticVersion(
        ParseUsize(parts[0]).value, ParseUsize(parts[1]).value, ParseUsize(parts[2]).value);
      if |parts| > 3 then Err(TooManyParts) else Ok(version)
  }

  /** `bump_major`; the `+= 1` overflow panic is excluded by the precondition. */
  function BumpMajor(v: SemanticVersion): (r: SemanticVersion)
    requires v.major < USIZE_MAX
    ensures r.major == v.major + 1 && r.minor == v.minor && r.patch == v.patch
  {
    v.(major := v.major + 1)
  }

  /** `bump_minor`: the patch field is kept, not reset. */
  function BumpMinor(v: SemanticVersion): (r: SemanticVersion)
    requires v.minor < USIZE_MAX
    ensures r.major == v.major && r.minor == v.minor + 1 && r.patch == v.patch
  {
    v.(minor := v.minor + 1)
  }

  /** `bump_patch` */
  function BumpPatch(v: SemanticVersion): (r: SemanticVersion)
    requires v.patch < USIZE_MAX
    ensures r.major == v.major && r.minor == v.minor && r.patch == v.patch + 1
  {
    v.(patch := v.patch + 1)
  }

  /** Precedence of normal versions: fields compared major, then minor, then patch. */
  predicate Precedes(a: SemanticVersion, b: SemanticVersion) {
    || a.major < b.major
    || (a.major == b.major && a.minor < b.minor)
    || (a.major == b.major && a.minor == b.minor && a.patch < b.patch)
  }

  /** Parsing a rendered version gives the same version back. */
  lemma NewRender(v: SemanticVersion)
    ensures LeadingPartsParse(Split(Render(v), '.'))
    ensures New(Render(v)) == Ok(v)
  {
    ParseDecimal(v.major);
    ParseDecimal(v.minor);
    ParseDecimal(v.patch);
  }

  /**
   * A string of three canonical numerals that fit in `usize`, separated by
   * dots, parses successfully and renders back to itself.
   */
  lemma {:induction false} RenderNew(a: string, b: string, c: string)
    requires Canonical(a) && Value(a) <= USIZE_MAX
    requires Canonical(b) && Value(b) <= USIZE_MAX
    requires Canonical(c) && Value(c) <= USIZE_MAX
    ensures LeadingPartsParse(Split(a + "." + b + "." + c, '.'))
    ensures New(a + "." + b + "." + c).Ok?
    ensures Render(New(a + "." + b + "." + c).value) == a + "." + b + "." + c
  {
    assert '.' !in a && '.' !in b && '.' !in c by {
      DecimalOfCanonical(a);
      DecimalOfCanonical(b);
      DecimalOfCanonical(c);
      DecimalHasNoDot(Value(a));
      DecimalHasNoDot(Value(b));
      DecimalHasNoDot(Value(c));
    }
    SplitThree(a, b, c, '.');
    ParseCanonical(a);
    ParseCanonical(b);
    ParseCanonical(c);
  }

  /**
   * A part after the third is never parsed: a fourth part that is not a
   * number still yields the too-many-parts error rather than a panic.
   */
  lemma ExtraPartNotParsed(v: SemanticVersion, extra: string)
    requires '.' !in extra
    ensures LeadingPartsParse(Split(Render(v) + "." + extra, '.'))
    ensures New(Render(v) + "." + extra) == Err(TooManyParts)
  {
    DecimalHasNoDot(v.major);
    DecimalHasNoDot(v.minor);
    DecimalHasNoDot(v.patch);
    SplitFour(Decimal(v.major), Decimal(v.minor), Decimal(v.patch), extra, '.');
    ParseDecimal(v.major);
    ParseDecimal(v.minor);
    ParseDecimal(v.patch);
  }

  /** Every bump moves to a version of strictly higher precedence. */
  lemma BumpsIncrease(v: SemanticVersion)
    ensures v.major < USIZE_MAX ==> Precedes(v, BumpMajor(v))
    ensures v.minor < USIZE_MAX ==> Precedes(v, BumpMinor(v))
    ensures v.patch < USIZE_MAX ==> Precedes(v, BumpPatch(v))
  {
  }

  /** A version whose fields are single digits renders as five characters. */
  lemma RenderDigits(a: nat, b: nat, c: nat)
    requires a < 10 && b < 10 && c < 10
    ensures Render(SemanticVersion(a, b, c)) == [DigitChar(a), '.', DigitChar(b), '.', DigitChar(c)]
  {
  }

  /**
   * The source's own expectations for "1.2.3": it parses and renders back
   * as "1.2.3", and the three bumps give "2.2.3", "1.3.3" and "1.2.4" (no
   * field is reset).
   */
  lemma BumpExamples()
    ensures LeadingPartsParse(Split("1.2.3", '.'))
    ensures New("1.2.3") == Ok(SemanticVersion(1, 2, 3))
    ensures Render(SemanticVersion(1, 2, 3)) == "1.2.3"
    ensures Render(BumpMajor(SemanticVersion(1, 2, 3))) == "2.2.3"
    ensures Render(BumpMinor(SemanticVersion(1, 2, 3))) == "1.3.3"
    ensures Render(BumpPatch(SemanticVersion(1, 2, 3))) == "1.2.4"
  {
    RenderDigits(1, 2, 3);
    RenderDigits(2, 2, 3);
    RenderDigits(1, 3, 3);
    RenderDigits(1, 2, 4);
    NewRender(SemanticVersion(1, 2, 3));
  }

  /** Too few parts is the first refusal: "1.2" has one separator. */
  lemma TooFewExample()
    ensures LeadingPartsParse(Split("1.2", '.'))
    ensures New("1.2") == Err(TooFewParts)
  {
    assert multiset("1.2")['.'] == 1;
  }
}
