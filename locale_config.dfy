/**
 * Locale configuration of the site: the closed set of supported locales,
 * their metadata (text direction and display code), the country-to-locale
 * table used for auto-detection, the detection function itself, and the
 * text-direction fallback the root layout applies to a locale tag.
 */
module LocaleConfig {
  import opened Wrappers

  /** The supported locales, `'en' | 'ar'`. */
  datatype Locale = En | Ar

  /** `locales`, in declaration order. */
  const Locales: seq<Locale> := [En, Ar]

  /** `defaultLocale`. */
  const DefaultLocale: Locale := En

  /** The tag under which a locale is written (the string literal of its union member). */
  function Tag(l: Locale): string
  {
    match l
    case En => "en"
    case Ar => "ar"
  }

  /** The locale a tag names, if any. */
  function ParseLocale(tag: string): (r: Option<Locale>)
    ensures r.Some? ==> Tag(r.value) == tag
    ensures r.None? ==> forall l: Locale :: Tag(l) != tag
  {
    if tag == "en" then Some(En)
    else if tag == "ar" then Some(Ar)
    else None
  }

  lemma ParseTagRoundTrip(l: Locale)
    ensures ParseLocale(Tag(l)) == Some(l)
  {
    match l
    case En =>
    case Ar =>
  }

  // ---------------------------------------------------------------------
  // Language metadata
  // ---------------------------------------------------------------------

  datatype Direction = Ltr | Rtl

  datatype LanguageInfo = LanguageInfo(name: string, nativeName: string, dir: Direction, code: string)

  /** `languages`: one metadata record per supported locale. */
  const Languages: map<Locale, LanguageInfo> := map[
    En := LanguageInfo("English", "English", Ltr, "EN"),
    Ar := LanguageInfo("Arabic", "\U{0627}\U{0644}\U{0639}\U{0631}\U{0628}\U{064A}\U{0629}", Rtl, "AR")
  ]

  // ---------------------------------------------------------------------
  // Upper-casing (String.prototype.toUpperCase, restricted)
  // ---------------------------------------------------------------------

  /**
   * Upper case of one character: the ASCII letters a-z, plus the two
   * non-ASCII letters whose upper case is a single ASCII letter
   * (dotless i U+0131 and long s U+017F). Every other character is kept.
   */
  function UpperChar(c: char): char
  {
    if 'a' <= c <= 'z' then (c as int - 32) as char
    else if c == '\U{0131}' then 'I'
    else if c == '\U{017F}' then 'S'
    else c
  }

  predicate IsUpper(s: string)
  {
    forall i | 0 <= i < |s| :: UpperChar(s[i]) == s[i]
  }

  function ToUpperCase(s: string): (r: string)
    ensures |r| == |s|
    ensures IsUpper(r)
    ensures IsUpper(s) ==> r == s
    ensures forall i | 0 <= i < |s| :: 'a' <= s[i] <= 'z' ==> r[i] as int == s[i] as int - 32
    ensures forall i | 0 <= i < |s| :: s[i] == '\U{0131}' ==> r[i] == 'I'
    ensures forall i | 0 <= i < |s| :: s[i] == '\U{017F}' ==> r[i] == 'S'
    ensures forall i | 0 <= i < |s| :: UpperChar(s[i]) == s[i] ==> r[i] == s[i]
  {
    seq(|s|, i requires 0 <= i < |s| => UpperChar(s[i]))
  }

  lemma ToUpperCaseIdempotent(s: string)
    ensures ToUpperCase(ToUpperCase(s)) == ToUpperCase(s)
  {
  }

  // ---------------------------------------------------------------------
  // Country detection
  // ---------------------------------------------------------------------

  /** `countryToLocale`: ISO 3166-1 alpha-2 codes of Arabic-speaking countries. */
  const CountryToLocale: map<string, Locale> := map[
    "OM" := Ar, "SA" := Ar, "AE" := Ar, "KW" := Ar, "BH" := Ar, "QA" := Ar,
    "EG" := Ar, "JO" := Ar, "LB" := Ar, "IQ" := Ar, "YE" := Ar, "SY" := Ar,
    "PS" := Ar, "LY" := Ar, "SD" := Ar, "MA" := Ar, "DZ" := Ar, "TN" := Ar
  ]

  /**
   * `getLocaleFromCountry`: upper-case the code, look it up, and fall back
   * to the default locale. A null or undefined code (`None`) looks up the
   * key "undefined", which is absent.
   */
  function GetLocaleFromCountry(countryCode: Option<string>): (l: Locale)
    ensures l == Ar <==> countryCode.Some? && ToUpperCase(countryCode.value) in CountryToLocale
    ensures l == DefaultLocale <==> !(countryCode.Some? && ToUpperCase(countryCode.value) in CountryToLocale)
  {
    match countryCode
    case None => DefaultLocale
    case Some(code) =>
      var key := ToUpperCase(code);
      if key in CountryToLocale then CountryToLocale[key] else DefaultLocale
  }

  /** `languages[locale]?.dir || 'ltr'` in the root layout, on the locale tag. */
  function DirOf(localeTag: string): (d: Direction)
    ensures d == Rtl <==> localeTag == "ar"
  {
    match ParseLocale(localeTag)
    case Some(l) => Languages[l].dir
    case None => Ltr
  }

  // ---------------------------------------------------------------------
  // Properties of the configuration
  // ---------------------------------------------------------------------

  lemma DefaultLocaleIsSupported()
    ensures DefaultLocale in Locales && Tag(DefaultLocale) == "en"
  {
  }

  /** Detection never leaves the supported set. */
  lemma DetectedLocaleIsSupported(countryCode: Option<string>)
    ensures GetLocaleFromCountry(countryCode) in Locales
  {
  }

  /** `languages` covers every locale: en is ltr/EN, ar is rtl/AR, and the code is the upper-cased tag. */
  lemma LanguagesTotal(l: Locale)
    ensures l in Languages
    ensures Languages[l].dir == (if l == Ar then Rtl else Ltr)
    ensures Languages[l].code == ToUpperCase(Tag(l))
  {
    match l
    case En =>
      assert ToUpperCase("en") == "EN" by {
        assert ToUpperCase("en")[0] == 'E' && ToUpperCase("en")[1] == 'N';
      }
    case Ar =>
      assert ToUpperCase("ar") == "AR" by {
        assert ToUpperCase("ar")[0] == 'A' && ToUpperCase("ar")[1] == 'R';
      }
  }

  /** The layout's direction agrees with the metadata table on every supported locale. */
  lemma DirOfAgreesWithLanguages(l: Locale)
    ensures DirOf(Tag(l)) == Languages[l].dir
  {
    ParseTagRoundTrip(l);
  }

  /** The table maps every key to Arabic, and every key is already upper case. */
  lemma CountryTableShape()
    ensures forall c | c in CountryToLocale :: CountryToLocale[c] == Ar
    ensures forall c | c in CountryToLocale :: IsUpper(c)
  {
  }

  /** Each of the 18 listed codes, as written, is detected as Arabic. */
  lemma ArabicCountriesDetected(c: string)
    requires c in {"OM", "SA", "AE", "KW", "BH", "QA", "EG", "JO", "LB",
                   "IQ", "YE", "SY", "PS", "LY", "SD", "MA", "DZ", "TN"}
    ensures GetLocaleFromCountry(Some(c)) == Ar
  {
    CountryTableShape();
  }

  /** Lookup ignores case: a code and its upper case detect the same locale. */
  lemma DetectionIgnoresCase(code: string)
    ensures GetLocaleFromCountry(Some(code)) == GetLocaleFromCountry(Some(ToUpperCase(code)))
  {
    ToUpperCaseIdempotent(code);
  }

  /** Lower-case codes are detected too: "sa" gives Arabic, "om" gives Arabic. */
  lemma LowerCaseCodeDetected()
    ensures GetLocaleFromCountry(Some("sa")) == Ar
    ensures GetLocaleFromCountry(Some("om")) == Ar
  {
    assert ToUpperCase("sa") == "SA" by {
      assert ToUpperCase("sa")[0] == 'S' && ToUpperCase("sa")[1] == 'A';
    }
    assert ToUpperCase("om") == "OM" by {
      assert ToUpperCase("om")[0] == 'O' && ToUpperCase("om")[1] == 'M';
    }
  }

  /** A missing, empty or unlisted code gives the default locale. */
  lemma UnknownCodesFallBack()
    ensures GetLocaleFromCountry(None) == DefaultLocale
    ensures GetLocaleFromCountry(Some("")) == DefaultLocale
    ensures GetLocaleFromCountry(Some("us")) == DefaultLocale
  {
    assert ToUpperCase("us") == "US" by {
      assert ToUpperCase("us")[0] == 'U' && ToUpperCase("us")[1] == 'S';
    }
  }
}
