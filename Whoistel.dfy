/**
 * The French number-prefix resolution engine: canonicalisation of a raw
 * number, geographic / non-geographic classification, longest-prefix match
 * against the selected range table, and the operator and commune joins that
 * build one lookup result.
 *
 * The four tables of the ARCEP snapshot are immutable maps, passed in as one
 * `Database` value in place of the connection.
 */
module Whoistel {
  import opened Wrappers
  import opened PyStr

  /** Coarse region of a geographic number, by its first two digits. */
  const RegionMap: map<string, string> :=
    map["01" := "Île-de-France", "02" := "Nord-Ouest", "03" := "Nord-Est",
        "04" := "Sud-Est", "05" := "Sud-Ouest"]

  // ---------------------------------------------------------------------
  // Canonicaliser
  // ---------------------------------------------------------------------

  /** The characters that `[\s.\-()]` removes. */
  predicate IsSeparator(c: char) {
    IsSpace(c) || c == '.' || c == '-' || c == '(' || c == ')'
  }

  /** `re.sub(r'[\s.\-()]', '', s)`: every separator removed, the other
      characters kept in order. */
  function RemoveSeparators(s: string): string {
    if s == [] then []
    else (if IsSeparator(s[0]) then [] else [s[0]]) + RemoveSeparators(s[1..])
  }

  /** What is left contains no separator; a string without separators is left
      as it is. */
  lemma {:induction false} RemoveSeparatorsSpec(s: string)
    ensures |RemoveSeparators(s)| <= |s|
    ensures forall i :: 0 <= i < |RemoveSeparators(s)| ==> !IsSeparator(RemoveSeparators(s)[i])
    ensures (forall i :: 0 <= i < |s| ==> !IsSeparator(s[i])) ==> RemoveSeparators(s) == s
  {
    if s != [] {
      RemoveSeparatorsSpec(s[1..]);
    }
  }

  /** At most one international-prefix rewrite, `+330` before `+33` before
      `0033`. */
  function RewritePrefix(t: string): (r: string)
    ensures r == t <==> !("+33" <= t) && !("0033" <= t)
    ensures r != t ==> |r| >= 1 && r[0] == '0' && (|t| - |r| == 2 || |t| - |r| == 3)
                       && r[1..] == t[|t| - |r| + 1..]
  {
    if "+330" <= t then "0" + t[4..]
    else if "+33" <= t then "0" + t[3..]
    else if "0033" <= t then "0" + t[4..]
    else t
  }

  /** `clean_phone_number`: `None` and `""` give `""`; otherwise separators are
      removed and then one international prefix is rewritten. */
  function CleanPhoneNumber(raw: Option<string>): (r: string)
    ensures raw == None || raw == Some("") ==> r == ""
    ensures forall i :: 0 <= i < |r| ==> !IsSeparator(r[i])
  {
    match raw
    case None => ""
    case Some(s) =>
      if s == "" then ""
      else
        RemoveSeparatorsSpec(s);
        RewritePrefix(RemoveSeparators(s))
  }

  /** `is_valid_phone_format`: non-empty, all digits, exactly ten of them. */
  predicate IsValidPhoneFormat(tel: string)
    ensures IsValidPhoneFormat(tel) <==>
            |tel| == 10 && forall i :: 0 <= i < |tel| ==> IsAsciiDigit(tel[i])
  {
    tel != "" && IsDigits(tel) && |tel| == 10
  }

  lemma DigitsHaveNoSeparator(t: string)
    requires IsDigits(t)
    ensures RemoveSeparators(t) == t
  {
    RemoveSeparatorsSpec(t);
    forall i | 0 <= i < |t| ensures !IsSeparator(t[i]) {
      SpaceIsNotAlnum(t[i]);
    }
  }

  /** A valid number that does not begin with `0033` is its own canonical form. */
  lemma CleanFixesValidNumber(t: string)
    requires IsValidPhoneFormat(t) && !("0033" <= t)
    ensures CleanPhoneNumber(Some(t)) == t
  {
    DigitsHaveNoSeparator(t);
    assert !("+33" <= t) by { assert t[0] != '+'; }
  }

  /** As written, canonicalisation is not idempotent on valid numbers: a valid
      number beginning `0033` is shortened to seven digits, which is no longer
      valid. */
  lemma CleanShortensValid0033(t: string)
    requires IsValidPhoneFormat(t) && "0033" <= t
    ensures |CleanPhoneNumber(Some(t))| == 7
    ensures !IsValidPhoneFormat(CleanPhoneNumber(Some(t)))
  {
    DigitsHaveNoSeparator(t);
    assert !("+33" <= t) by { assert t[0] != '+'; }
  }

  lemma {:induction false} RemoveSeparatorsConcat(a: string, b: string)
    ensures RemoveSeparators(a + b) == RemoveSeparators(a) + RemoveSeparators(b)
  {
    if a == [] {
      assert a + b == b;
    } else {
      assert (a + b)[0] == a[0] && (a + b)[1..] == a[1..] + b;
      RemoveSeparatorsConcat(a[1..], b);
      var head := if IsSeparator(a[0]) then [] else [a[0]];
      calc {
        RemoveSeparators(a + b);
        head + RemoveSeparators(a[1..] + b);
        head + (RemoveSeparators(a[1..]) + RemoveSeparators(b));
        (head + RemoveSeparators(a[1..])) + RemoveSeparators(b);
      }
    }
  }

  lemma RemoveSeparatorsDrops(a: string, c: char, b: string)
    requires IsSeparator(c)
    ensures RemoveSeparators(a + [c] + b) == RemoveSeparators(a + b)
  {
    RemoveSeparatorsConcat(a + [c], b);
    RemoveSeparatorsConcat(a, [c]);
    RemoveSeparatorsConcat(a, b);
    assert RemoveSeparators([c]) == [];
  }

  /** A separator inserted anywhere does not change the canonical form. */
  lemma CleanIgnoresSeparator(a: string, c: char, b: string)
    requires IsSeparator(c)
    ensures CleanPhoneNumber(Some(a + [c] + b)) == CleanPhoneNumber(Some(a + b))
  {
    RemoveSeparatorsDrops(a, c, b);
    if a + b == "" {
      assert RemoveSeparators(a + b) == "";
    }
  }

  lemma TrunkPrefixStripped()
    ensures RemoveSeparators("+33 (0) ") == "+330"
  {
  }

  lemma PrefixesHaveNoSeparator()
    ensures RemoveSeparators("+330") == "+330"
    ensures RemoveSeparators("+33") == "+33"
  {
  }

  lemma InternationalPrefixHasNoSeparator()
    ensures RemoveSeparators("0033") == "0033"
  {
  }

  /** A prefix followed by digits: the digits survive the separator removal
      unchanged, after whatever is left of the prefix. */
  lemma CleanPrefixedDigits(p: string, q: string, d: string)
    requires RemoveSeparators(p) == q && IsDigits(d)
    ensures CleanPhoneNumber(Some(p + d)) == RewritePrefix(q + d)
  {
    RemoveSeparatorsConcat(p, d);
    DigitsHaveNoSeparator(d);
  }

  lemma RewriteTrunk(d: string)
    ensures RewritePrefix("+330" + d) == "0" + d
  {
    var u := "+330" + d;
    assert "+330" <= u;
    assert u[4..] == d;
  }

  lemma RewriteCountry(d: string)
    requires d != [] && d[0] != '0'
    ensures RewritePrefix("+33" + d) == "0" + d
  {
    var u := "+33" + d;
    assert !("+330" <= u) by { assert u[3] == d[0]; }
    assert "+33" <= u;
    assert u[3..] == d;
  }

  lemma RewriteInternational(d: string)
    ensures RewritePrefix("0033" + d) == "0" + d
  {
    var u := "0033" + d;
    assert u[0] != '+';
    assert "0033" <= u;
    assert u[4..] == d;
  }

  /** `+330` followed by digits becomes `0` and those digits. */
  lemma CleanTrunkDigits(d: string)
    requires IsDigits(d)
    ensures CleanPhoneNumber(Some("+330" + d)) == "0" + d
  {
    PrefixesHaveNoSeparator();
    CleanPrefixedDigits("+330", "+330", d);
    RewriteTrunk(d);
  }

  /** The written international form with the national trunk digit in
      brackets: `+33 (0) ` followed by digits becomes `0` and those digits. */
  lemma CleanTrunkPrefix(d: string)
    requires IsDigits(d)
    ensures CleanPhoneNumber(Some("+33 (0) " + d)) == "0" + d
  {
    TrunkPrefixStripped();
    CleanPrefixedDigits("+33 (0) ", "+330", d);
    RewriteTrunk(d);
  }

  /** `+33` followed by digits that do not begin with `0` becomes `0` and
      those digits. */
  lemma CleanCountryCode(d: string)
    requires IsDigits(d) && d[0] != '0'
    ensures CleanPhoneNumber(Some("+33" + d)) == "0" + d
  {
    PrefixesHaveNoSeparator();
    CleanPrefixedDigits("+33", "+33", d);
    RewriteCountry(d);
  }

  /** The international form dialled from abroad: `0033` followed by digits
      becomes `0` and those digits. */
  lemma CleanInternationalDigits(d: string)
    requires IsDigits(d)
    ensures CleanPhoneNumber(Some("0033" + d)) == "0" + d
  {
    InternationalPrefixHasNoSeparator();
    CleanPrefixedDigits("0033", "0033", d);
    RewriteInternational(d);
  }

  // ---------------------------------------------------------------------
  // Classifier
  // ---------------------------------------------------------------------

  /** `is_geo`: a leading `0` followed by one of `1`-`5`. */
  predicate IsGeographic(tel: string) {
    |tel| >= 2 && tel[0] == '0' && tel[1] in "12345"
  }

  /** Classification looks at the first two characters only. */
  lemma ClassificationByFirstTwo(a: string, b: string)
    requires Take(a, 2) == Take(b, 2)
    ensures IsGeographic(a) == IsGeographic(b)
  {
    if |a| >= 2 && |b| >= 2 {
      assert a[0] == Take(a, 2)[0] && a[1] == Take(a, 2)[1];
      assert b[0] == Take(b, 2)[0] && b[1] == Take(b, 2)[1];
    }
  }

  /** Every geographic number has a coarse region. */
  lemma {:induction false} GeographicHasRegion(tel: string)
    requires IsGeographic(tel)
    ensures tel[..2] in RegionMap
  {
    assert tel[..2] == [tel[0], tel[1]];
    assert tel[1] == '1' || tel[1] == '2' || tel[1] == '3' || tel[1] == '4' || tel[1] == '5';
  }

  // ---------------------------------------------------------------------
  // The tables
  // ---------------------------------------------------------------------

  /** A row of `PlagesNumerosGeographiques`. */
  datatype GeoRange = GeoRange(codeOperateur: string, codeInsee: Option<string>)

  /** A row of `Operateurs`. */
  datatype OperatorRow = OperatorRow(nom: Option<string>, kind: Option<string>,
                                     mail: Option<string>, site: Option<string>)

  /** A row of `Communes`. */
  datatype CommuneRow = CommuneRow(nom: Option<string>, codePostal: Option<string>,
                                   departement: Option<string>,
                                   latitude: Option<real>, longitude: Option<real>)

  /** The snapshot: geographic ranges, other ranges (prefix to operator code),
      operators and communes, each keyed by its lookup column. */
  datatype Database = Database(geoRanges: map<string, GeoRange>,
                               ranges: map<string, string>,
                               operators: map<string, OperatorRow>,
                               communes: map<string, CommuneRow>)

  // ---------------------------------------------------------------------
  // Longest-prefix matcher
  // ---------------------------------------------------------------------

  datatype NumberKind = Geographique | NonGeographique

  /** What `search_number` returns on a hit. */
  datatype Match = Match(prefix: string, codeOperateur: string,
                         codeInsee: Option<string>, kind: NumberKind)

  /** `p` is a key of the table that `geo` selects. */
  predicate InTable(db: Database, geo: bool, p: string) {
    if geo then p in db.geoRanges else p in db.ranges
  }

  /** The match built from the row of `p` in the selected table. */
  function MatchAt(db: Database, geo: bool, p: string): (m: Match)
    requires InTable(db, geo, p)
    ensures m.prefix == p
    ensures m.kind == (if geo then Geographique else NonGeographique)
    ensures !geo ==> m.codeInsee == None
  {
    if geo then Match(p, db.geoRanges[p].codeOperateur, db.geoRanges[p].codeInsee, Geographique)
    else Match(p, db.ranges[p], None, NonGeographique)
  }

  /** The first prefix length probed: `min(len(tel), 9)`. */
  function MaxProbe(tel: string): (n: nat)
    ensures n <= |tel| && n <= 9
    ensures n == |tel| || n == 9
  {
    if |tel| < 9 then |tel| else 9
  }

  /** Probing `tel[:k]`, `tel[:k-1]`, ..., `tel[:2]`, stopping at the first key. */
  function Probe(db: Database, tel: string, geo: bool, k: nat): (r: Option<Match>)
    requires k <= |tel|
    ensures r.Some? ==> 2 <= |r.value.prefix| <= k && r.value.prefix == tel[..|r.value.prefix|]
                        && InTable(db, geo, r.value.prefix) && r.value == MatchAt(db, geo, r.value.prefix)
    decreases k
  {
    if k < 2 then None
    else if InTable(db, geo, tel[..k]) then Some(MatchAt(db, geo, tel[..k]))
    else Probe(db, tel, geo, k - 1)
  }

  /** What `search_number` computes. */
  function Search(db: Database, tel: string): (r: Option<Match>)
    ensures r.Some? ==> 2 <= |r.value.prefix| <= MaxProbe(tel) && r.value.prefix <= tel
                        && (r.value.kind == Geographique <==> IsGeographic(tel))
  {
    Probe(db, tel, IsGeographic(tel), MaxProbe(tel))
  }

  lemma {:induction false} ProbeHit(db: Database, tel: string, geo: bool, k: nat)
    requires k <= |tel| && Probe(db, tel, geo, k).Some?
    ensures var m := Probe(db, tel, geo, k).value;
            && 2 <= |m.prefix| <= k
            && m.prefix == tel[..|m.prefix|]
            && InTable(db, geo, m.prefix)
            && m == MatchAt(db, geo, m.prefix)
            && forall j :: |m.prefix| < j <= k ==> !InTable(db, geo, tel[..j])
    decreases k
  {
    if !InTable(db, geo, tel[..k]) {
      ProbeHit(db, tel, geo, k - 1);
    }
  }

  lemma {:induction false} ProbeMiss(db: Database, tel: string, geo: bool, k: nat)
    requires k <= |tel|
    ensures Probe(db, tel, geo, k) == None <==>
            forall j :: 2 <= j <= k ==> !InTable(db, geo, tel[..j])
    decreases k
  {
    if k >= 2 && !InTable(db, geo, tel[..k]) {
      ProbeMiss(db, tel, geo, k - 1);
    }
  }

  /** Probing reads only the selected table. */
  lemma {:induction false} ProbeReadsSelectedTable(db1: Database, db2: Database, tel: string,
                                                 geo: bool, k: nat)
    requires k <= |tel|
    requires if geo then db1.geoRanges == db2.geoRanges else db1.ranges == db2.ranges
    ensures Probe(db1, tel, geo, k) == Probe(db2, tel, geo, k)
    decreases k
  {
    if k >= 2 && !InTable(db1, geo, tel[..k]) {
      ProbeReadsSelectedTable(db1, db2, tel, geo, k - 1);
    }
  }

  /** On a hit the prefix is `tel[:k]` for a `k` in `[2, min(len, 9)]`, it is a
      key of the table the classification selects, no longer probed prefix
      is a key, and the row fields come from that key. */
  lemma SearchHitIsLongest(db: Database, tel: string)
    requires Search(db, tel).Some?
    ensures var m := Search(db, tel).value;
            var k := |m.prefix|;
            && 2 <= k <= MaxProbe(tel)
            && m.prefix == tel[..k]
            && InTable(db, IsGeographic(tel), m.prefix)
            && (forall j :: k < j <= MaxProbe(tel) ==> !InTable(db, IsGeographic(tel), tel[..j]))
            && (m.kind == Geographique <==> IsGeographic(tel))
            && (IsGeographic(tel) ==> m.codeOperateur == db.geoRanges[m.prefix].codeOperateur
                                      && m.codeInsee == db.geoRanges[m.prefix].codeInsee)
            && (!IsGeographic(tel) ==> m.codeOperateur == db.ranges[m.prefix] && m.codeInsee == None)
  {
    ProbeHit(db, tel, IsGeographic(tel), MaxProbe(tel));
  }

  /** No match exactly when no probed prefix is a key of the selected table. */
  lemma SearchMissIff(db: Database, tel: string)
    ensures Search(db, tel) == None <==>
            forall j :: 2 <= j <= MaxProbe(tel) ==> !InTable(db, IsGeographic(tel), tel[..j])
  {
    ProbeMiss(db, tel, IsGeographic(tel), MaxProbe(tel));
  }

  /** Of two probed prefixes that are both keys, the shorter never wins. */
  lemma SearchPrefersLonger(db: Database, tel: string, k1: nat, k2: nat)
    requires 2 <= k2 < k1 <= MaxProbe(tel)
    requires InTable(db, IsGeographic(tel), tel[..k1]) && InTable(db, IsGeographic(tel), tel[..k2])
    ensures Search(db, tel).Some?
    ensures |Search(db, tel).value.prefix| >= k1
  {
    SearchMissIff(db, tel);
    SearchHitIsLongest(db, tel);
  }

  /** There is no fallback to the other table: changing it changes nothing. */
  lemma SearchIgnoresOtherTable(db1: Database, db2: Database, tel: string)
    requires IsGeographic(tel) ==> db1.geoRanges == db2.geoRanges
    requires !IsGeographic(tel) ==> db1.ranges == db2.ranges
    ensures Search(db1, tel) == Search(db2, tel)
  {
    ProbeReadsSelectedTable(db1, db2, tel, IsGeographic(tel), MaxProbe(tel));
  }

  /** `search_number`: probe decreasing lengths, break at the first hit. */
  method SearchNumber(db: Database, tel: string) returns (bestMatch: Option<Match>)
    ensures bestMatch == Search(db, tel)
  {
    var isGeo := IsGeographic(tel);
    bestMatch := None;
    var length: nat := MaxProbe(tel);
    while length > 1
      invariant length <= MaxProbe(tel)
      invariant Probe(db, tel, isGeo, length) == Search(db, tel)
      decreases length
    {
      var prefix := tel[..length];
      if isGeo {
        if prefix in db.geoRanges {
          var row := db.geoRanges[prefix];
          bestMatch := Some(Match(prefix, row.codeOperateur, row.codeInsee, Geographique));
          break;
        }
      } else {
        if prefix in db.ranges {
          bestMatch := Some(Match(prefix, db.ranges[prefix], None, NonGeographique));
          break;
        }
      }
      length := length - 1;
    }
  }

  // ---------------------------------------------------------------------
  // Enrichment joins
  // ---------------------------------------------------------------------

  /** The operator record of `get_operator_info`. */
  datatype Operator = Operator(code: string, nom: Option<string>, kind: Option<string>,
                               mail: Option<string>, site: Option<string>)

  /** The record used when the operator code has no row. */
  function UnknownOperator(code: string): (op: Operator)
    ensures op.code == code && op.mail == None && op.site == None
    ensures forall validEmail: string -> bool :: Sanitized(op, validEmail)
  {
    Operator(code, Some("Inconnu"), Some("N/A"), None, None)
  }

  /** Python truthiness of an optional string. */
  predicate Truthy(s: Option<string>) { s.Some? && s.value != "" }

  /** A truthy e-mail is kept only when `validEmail` accepts it. */
  function SanitizeMail(mail: Option<string>, validEmail: string -> bool): (r: Option<string>)
    ensures r == None || r == mail
    ensures r == mail <==> !Truthy(mail) || validEmail(mail.value)
  {
    if Truthy(mail) && !validEmail(mail.value) then None else mail
  }

  /** The characters allowed in a URL scheme. */
  predicate IsSchemeChar(c: char) {
    IsAsciiAlnum(c) || c == '+' || c == '-' || c == '.'
  }

  /** What `urlsplit` removes or strips before parsing: leading C0 controls and
      spaces, then every tab, carriage return and line feed. */
  function UrlPrepare(s: string): string {
    RemoveTabsAndNewlines(StripLeadingControls(s))
  }

  function StripLeadingControls(s: string): (r: string)
    ensures |r| <= |s| && r == s[|s| - |r|..]
    ensures r == [] || r[0] > ' '
  {
    if s != [] && s[0] <= ' ' then StripLeadingControls(s[1..]) else s
  }

  function RemoveTabsAndNewlines(s: string): (r: string)
    ensures forall i :: 0 <= i < |r| ==> r[i] !in "\t\r\n" && r[i] in s
    ensures (forall i :: 0 <= i < |s| ==> s[i] !in "\t\r\n") ==> r == s
  {
    if s == [] then []
    else (if s[0] in "\t\r\n" then [] else [s[0]]) + RemoveTabsAndNewlines(s[1..])
  }

  /** The scheme and the remainder of a prepared URL. */
  function SplitScheme(u: string): (string, string) {
    var i := IndexOf(u, ':');
    if 0 < i < |u| && IsAsciiAlpha(u[0]) && forall j :: 0 <= j < i ==> IsSchemeChar(u[j])
    then (AsciiLowerString(u[..i]), u[i + 1..])
    else ("", u)
  }

  /** The end of the network location: the first `/`, `?` or `#`. */
  function NetlocEnd(s: string): (n: nat)
    ensures n <= |s|
    ensures forall j :: 0 <= j < n ==> s[j] !in "/?#"
    ensures n < |s| ==> s[n] in "/?#"
  {
    if s == [] || s[0] in "/?#" then 0 else 1 + NetlocEnd(s[1..])
  }

  /** `urlparse(s).scheme` */
  function UrlScheme(s: string): string {
    SplitScheme(UrlPrepare(s)).0
  }

  /** `urlparse(s).netloc` */
  function UrlNetloc(s: string): (r: string)
    ensures forall j :: 0 <= j < |r| ==> r[j] !in "/?#"
  {
    var rest := SplitScheme(UrlPrepare(s)).1;
    if "//" <= rest then rest[2..][..NetlocEnd(rest[2..])] else ""
  }

  /** The site rule: scheme `http` or `https` and a non-empty netloc. */
  predicate IsSafeSite(s: string) {
    UrlScheme(s) in {"http", "https"} && UrlNetloc(s) != ""
  }

  /** A truthy site is kept only when it passes the site rule. */
  function SanitizeSite(site: Option<string>): (r: Option<string>)
    ensures r == None || r == site
    ensures r == site <==> !Truthy(site) || IsSafeSite(site.value)
  {
    if Truthy(site) && !IsSafeSite(site.value) then None else site
  }

  lemma HttpSchemeIsAlpha(scheme: string)
    requires AsciiLowerString(scheme) == "http" || AsciiLowerString(scheme) == "https"
    ensures |scheme| == 4 || |scheme| == 5
    ensures forall j :: 0 <= j < |scheme| ==> IsAsciiAlpha(scheme[j])
  {
    var lower := AsciiLowerString(scheme);
    assert forall j :: 0 <= j < |lower| ==> IsAsciiAlpha(lower[j]) by {
      HttpsIsAlpha(lower);
    }
    forall j | 0 <= j < |scheme| ensures IsAsciiAlpha(scheme[j]) {
      assert IsAsciiAlpha(lower[j]);
    }
  }

  lemma HttpsIsAlpha(w: string)
    requires w == "http" || w == "https"
    ensures forall j :: 0 <= j < |w| ==> IsAsciiAlpha(w[j])
  {
    assert w[0] == 'h' && w[1] == 't' && w[2] == 't' && w[3] == 'p';
  }

  lemma PrepareKeeps(u: string)
    requires u != [] && u[0] > ' '
    requires forall i :: 0 <= i < |u| ==> u[i] !in "\t\r\n"
    ensures UrlPrepare(u) == u
  {
  }

  lemma {:induction false} NetlocEndOfHost(host: string, path: string)
    requires forall i :: 0 <= i < |host| ==> host[i] !in "/?#"
    requires path == [] || path[0] in "/?#"
    ensures NetlocEnd(host + path) == |host|
  {
    if host == [] {
      assert host + path == path;
    } else {
      assert (host + path)[0] == host[0];
      assert (host + path)[1..] == host[1..] + path;
      NetlocEndOfHost(host[1..], path);
    }
  }

  lemma SplitHttpUrl(scheme: string, rest: string)
    requires AsciiLowerString(scheme) == "http" || AsciiLowerString(scheme) == "https"
    ensures SplitScheme(scheme + ":" + rest) == (AsciiLowerString(scheme), rest)
  {
    HttpSchemeIsAlpha(scheme);
    var u := scheme + ":" + rest;
    var n := |scheme|;
    assert u[n] == ':';
    forall j | 0 <= j < n ensures u[j] != ':' && IsSchemeChar(u[j]) { assert u[j] == scheme[j]; }
    assert IndexOf(u, ':') == n;
    assert u[..n] == scheme && u[n + 1..] == rest;
  }

  lemma HttpUrlPrepared(scheme: string, host: string, path: string)
    requires AsciiLowerString(scheme) == "http" || AsciiLowerString(scheme) == "https"
    requires forall i :: 0 <= i < |host| ==> host[i] !in "\t\r\n"
    requires forall i :: 0 <= i < |path| ==> path[i] !in "\t\r\n"
    ensures var u := scheme + ":" + ("//" + (host + path)); UrlPrepare(u) == u
  {
    HttpSchemeIsAlpha(scheme);
    var u := scheme + ":" + ("//" + (host + path));
    var n := |scheme|;
    forall i | 0 <= i < |u| ensures u[i] !in "\t\r\n" {
      if i < n { assert u[i] == scheme[i]; }
      else if i < n + 3 { assert u[i] in "://"; }
      else if i < n + 3 + |host| { assert u[i] == host[i - n - 3]; }
      else { assert u[i] == path[i - n - 3 - |host|]; }
    }
    assert u[0] == scheme[0];
    PrepareKeeps(u);
  }

  lemma NetlocOfHost(host: string, path: string)
    requires forall i :: 0 <= i < |host| ==> host[i] !in "/?#"
    requires path == [] || path[0] in "/?#"
    ensures var rest := "//" + (host + path); rest[2..][..NetlocEnd(rest[2..])] == host
  {
    var rest := "//" + (host + path);
    assert rest[2..] == host + path;
    NetlocEndOfHost(host, path);
    assert (host + path)[..|host|] == host;
  }

  /** Every `http` or `https` URL (scheme in any case) with a non-empty host
      passes the site rule. */
  lemma HttpUrlIsSafe(scheme: string, host: string, path: string)
    requires AsciiLowerString(scheme) == "http" || AsciiLowerString(scheme) == "https"
    requires host != "" && forall i :: 0 <= i < |host| ==> host[i] !in "\t\r\n/?#"
    requires path == [] || path[0] in "/?#"
    requires forall i :: 0 <= i < |path| ==> path[i] !in "\t\r\n"
    ensures IsSafeSite(scheme + ":" + ("//" + (host + path)))
  {
    var rest := "//" + (host + path);
    var u := scheme + ":" + rest;
    HttpUrlPrepared(scheme, host, path);
    SplitHttpUrl(scheme, rest);
    assert SplitScheme(UrlPrepare(u)) == (AsciiLowerString(scheme), rest);
    NetlocOfHost(host, path);
    assert "//" <= rest;
    assert UrlNetloc(u) == host;
  }

  /** A site with no `:` has no scheme and fails the site rule. */
  lemma SchemelessSiteIsUnsafe(s: string)
    requires forall i :: 0 <= i < |s| ==> s[i] != ':'
    ensures UrlScheme(s) == ""
    ensures !IsSafeSite(s)
  {
    PrepareKeepsNoColon(s);
    assert IndexOf(UrlPrepare(s), ':') == |UrlPrepare(s)|;
  }

  /** Preparing a URL for parsing adds no `:`. */
  lemma PrepareKeepsNoColon(s: string)
    requires forall i :: 0 <= i < |s| ==> s[i] != ':'
    ensures forall i :: 0 <= i < |UrlPrepare(s)| ==> UrlPrepare(s)[i] != ':'
  {
    var t := StripLeadingControls(s);
    forall i | 0 <= i < |t| ensures t[i] != ':' { assert t[i] == s[|s| - |t| + i]; }
  }

  /** An operator record exposes no e-mail or site that fails validation. */
  predicate Sanitized(op: Operator, validEmail: string -> bool) {
    (Truthy(op.mail) ==> validEmail(op.mail.value))
    && (Truthy(op.site) ==> IsSafeSite(op.site.value))
  }

  /** `get_operator_info`: `None` for an empty code or a code with no row;
      otherwise the row, with its e-mail and site sanitised. */
  function GetOperatorInfo(db: Database, code: string, validEmail: string -> bool): (r: Option<Operator>)
    ensures r.Some? <==> code != "" && code in db.operators
    ensures r.Some? ==> && r.value.code == code
                        && r.value.nom == db.operators[code].nom
                        && r.value.kind == db.operators[code].kind
                        && (r.value.mail == None || r.value.mail == db.operators[code].mail)
                        && (r.value.site == None || r.value.site == db.operators[code].site)
                        && Sanitized(r.value, validEmail)
    ensures r.Some? ==> && r.value.mail == SanitizeMail(db.operators[code].mail, validEmail)
                        && r.value.site == SanitizeSite(db.operators[code].site)
  {
    if code == "" then None
    else if code in db.operators then
      var row := db.operators[code];
      Some(Operator(code, row.nom, row.kind, SanitizeMail(row.mail, validEmail), SanitizeSite(row.site)))
    else None
  }

  /** The commune record of `get_commune_info`. */
  datatype Commune = Commune(codeInsee: string, row: CommuneRow)

  /** A usable INSEE code: present, non-empty and not the `'0'` placeholder. */
  predicate IsInseeCode(code: Option<string>) {
    Truthy(code) && code.value != "0"
  }

  /** `get_commune_info`: `None` for a missing, empty or `'0'` code and for a
      code with no row. */
  function GetCommuneInfo(db: Database, code: Option<string>): (r: Option<Commune>)
    ensures r.Some? <==> IsInseeCode(code) && code.value in db.communes
    ensures r.Some? ==> r.value == Commune(code.value, db.communes[code.value])
  {
    if !IsInseeCode(code) then None
    else if code.value in db.communes then Some(Commune(code.value, db.communes[code.value]))
    else None
  }

  /** The `location` dict: commune fields, a `region` key, or both. */
  datatype Location = Location(commune: Option<Commune>, region: Option<string>)

  /** The dict returned by `get_full_info`. `codeOperateur` is the key that is
      only added on a hit. */
  datatype LookupResult = LookupResult(number: string, found: bool, kind: Option<NumberKind>,
                                       prefix: Option<string>, codeOperateur: Option<string>,
                                       operator: Option<Operator>, location: Option<Location>,
                                       error: Option<string>)

  const NotFoundError: string :=
    "Numéro inconnu dans la base ARCEP (pas d'opérateur assigné trouvé)."

  function NotFoundResult(tel: string): LookupResult {
    LookupResult(tel, false, None, None, None, None, None, Some(NotFoundError))
  }

  /** The location of a hit: the commune when its code is usable, then the
      region key added for every geographic number, even next to a commune. */
  function LocationOf(db: Database, tel: string, m: Match): (loc: Option<Location>)
    ensures loc.Some? ==> loc.value != Location(None, None)
    ensures m.kind == NonGeographique && !IsInseeCode(m.codeInsee) ==> loc == None
  {
    var commune := if IsInseeCode(m.codeInsee) then GetCommuneInfo(db, m.codeInsee) else None;
    var regionCode := Take(tel, 2);
    if m.kind == Geographique && regionCode in RegionMap then Some(Location(commune, Some(RegionMap[regionCode])))
    else if commune.Some? then Some(Location(commune, None))
    else None
  }

  /** The result `get_full_info` builds for a hit. */
  function FoundResult(db: Database, tel: string, m: Match, validEmail: string -> bool): (r: LookupResult)
    ensures r.number == tel && r.found && r.error == None
    ensures r.prefix == Some(m.prefix) && r.kind == Some(m.kind) && r.codeOperateur == Some(m.codeOperateur)
    ensures r.operator.Some? && r.operator.value.code == m.codeOperateur && Sanitized(r.operator.value, validEmail)
  {
    var op := match GetOperatorInfo(db, m.codeOperateur, validEmail)
              case Some(o) => o
              case None => UnknownOperator(m.codeOperateur);
    LookupResult(tel, true, Some(m.kind), Some(m.prefix), Some(m.codeOperateur),
                 Some(op), LocationOf(db, tel, m), None)
  }

  /** What `get_full_info` computes. */
  function FullInfo(db: Database, tel: string, validEmail: string -> bool): (r: LookupResult)
    ensures r.number == tel
    ensures r.found <==> Search(db, tel).Some?
  {
    match Search(db, tel)
    case None => NotFoundResult(tel)
    case Some(m) => FoundResult(db, tel, m, validEmail)
  }

  /** `get_full_info`: the result dict, filled one field at a time. */
  method GetFullInfo(db: Database, tel: string, validEmail: string -> bool) returns (result: LookupResult)
    ensures result == FullInfo(db, tel, validEmail)
  {
    var info := SearchNumber(db, tel);
    result := LookupResult(tel, false, None, None, None, None, None, None);
    if info.None? {
      result := result.(error := Some(NotFoundError));
      return;
    }
    var m := info.value;
    result := result.(found := true, kind := Some(m.kind), prefix := Some(m.prefix),
                      codeOperateur := Some(m.codeOperateur));
    var opInfo := GetOperatorInfo(db, m.codeOperateur, validEmail);
    if opInfo.Some? {
      result := result.(operator := opInfo);
    } else {
      result := result.(operator := Some(UnknownOperator(m.codeOperateur)));
    }
    if IsInseeCode(m.codeInsee) {
      var commune := GetCommuneInfo(db, m.codeInsee);
      result := result.(location := if commune.Some? then Some(Location(commune, None)) else None);
    }
    if m.kind == Geographique {
      var regionCode := Take(tel, 2);
      if regionCode in RegionMap {
        var loc := if result.location.Some? then result.location.value else Location(None, None);
        result := result.(location := Some(loc.(region := Some(RegionMap[regionCode]))));
      }
    }
  }

  // ---------------------------------------------------------------------
  // Properties of the lookup result
  // ---------------------------------------------------------------------

  /** A miss gives the fixed not-found record, and only a miss does. */
  lemma FullInfoNotFound(db: Database, tel: string, validEmail: string -> bool)
    ensures var r := FullInfo(db, tel, validEmail);
            && r.number == tel
            && (!r.found <==> forall j :: 2 <= j <= MaxProbe(tel) ==> !InTable(db, IsGeographic(tel), tel[..j]))
            && (!r.found ==> r == NotFoundResult(tel))
  {
    SearchMissIff(db, tel);
  }

  /** A number whose probed prefixes are keys of neither table is not found,
      whatever its classification. */
  lemma FullInfoAbsentFromBothTables(db: Database, tel: string, validEmail: string -> bool)
    requires forall j :: 2 <= j <= MaxProbe(tel) ==> tel[..j] !in db.geoRanges && tel[..j] !in db.ranges
    ensures FullInfo(db, tel, validEmail) == NotFoundResult(tel)
  {
    SearchMissIff(db, tel);
  }

  /** A hit carries its kind, prefix and operator code; its operator is the
      joined row when there is one, and the "Inconnu" record otherwise; it
      never exposes an unvalidated e-mail or site. */
  lemma FullInfoOperator(db: Database, tel: string, validEmail: string -> bool)
    requires FullInfo(db, tel, validEmail).found
    ensures var r := FullInfo(db, tel, validEmail);
            var code := r.codeOperateur.value;
            && r.kind.Some? && r.prefix.Some? && r.codeOperateur.Some? && r.error == None
            && r.prefix.value <= tel
            && r.operator.Some? && r.operator.value.code == code
            && (code != "" && code in db.operators ==> r.operator == GetOperatorInfo(db, code, validEmail))
            && (code == "" || code !in db.operators ==> r.operator == Some(UnknownOperator(code)))
            && Sanitized(r.operator.value, validEmail)
  {
    SearchHitIsLongest(db, tel);
  }

  /** A geographic hit always carries its region, also when a commune was
      found; the commune is attached exactly when its code has a row. */
  lemma FullInfoGeographicLocation(db: Database, tel: string, validEmail: string -> bool)
    requires IsGeographic(tel) && FullInfo(db, tel, validEmail).found
    ensures var r := FullInfo(db, tel, validEmail);
            var m := Search(db, tel).value;
            && r.kind == Some(Geographique)
            && r.location.Some?
            && tel[..2] in RegionMap && r.location.value.region == Some(RegionMap[tel[..2]])
            && m.prefix in db.geoRanges
            && r.location.value.commune == GetCommuneInfo(db, db.geoRanges[m.prefix].codeInsee)
  {
    SearchHitIsLongest(db, tel);
    GeographicHasRegion(tel);
    var m := Search(db, tel).value;
    assert Take(tel, 2) == tel[..2];
    assert FullInfo(db, tel, validEmail).location == LocationOf(db, tel, m);
  }

  /** A non-geographic hit never has a location. */
  lemma FullInfoNonGeographicLocation(db: Database, tel: string, validEmail: string -> bool)
    requires !IsGeographic(tel) && FullInfo(db, tel, validEmail).found
    ensures FullInfo(db, tel, validEmail).kind == Some(NonGeographique)
    ensures FullInfo(db, tel, validEmail).location == None
  {
    SearchHitIsLongest(db, tel);
  }

  // ---------------------------------------------------------------------
  // Result presenter: which blocks `print_result` shows
  // ---------------------------------------------------------------------

  const NotFoundNote: string :=
    "Certains numéros récents ou portés peuvent ne pas figurer dans le fichier public Open Data."

  datatype CarrierView =
    | CarrierDetails(nom: Option<string>, code: string, site: Option<string>, mail: Option<string>)
    | CarrierUnknown(unknownCode: Option<string>)

  datatype CommuneView = CommuneView(nom: Option<string>, departement: Option<string>,
                                     codePostal: Option<string>, gps: Option<(real, real)>)

  /** The region line (with the "commune not available" note when there is no
      commune) and the commune block. */
  datatype LocationView = LocationView(region: Option<string>, communeMissingNote: bool,
                                       commune: Option<CommuneView>)

  datatype View =
    | NotFoundView(number: string, message: Option<string>, note: string)
    | FoundView(number: string, kind: Option<NumberKind>, prefix: Option<string>,
                carrier: CarrierView, location: Option<LocationView>)

  /** A truthy coordinate pair. */
  function Gps(row: CommuneRow): Option<(real, real)> {
    if row.latitude.Some? && row.latitude.value != 0.0 && row.longitude.Some? && row.longitude.value != 0.0
    then Some((row.latitude.value, row.longitude.value)) else None
  }

  function KeepTruthy(s: Option<string>): (r: Option<string>)
    ensures r.Some? <==> Truthy(s)
    ensures r.Some? ==> r == s
  {
    if Truthy(s) then s else None
  }

  function PresentLocation(loc: Location): LocationView {
    var region := KeepTruthy(loc.region);
    LocationView(region, region.Some? && loc.commune.None?,
                 match loc.commune
                 case Some(c) => Some(CommuneView(c.row.nom, c.row.departement, c.row.codePostal, Gps(c.row)))
                 case None => None)
  }

  /** The blocks `print_result` shows for a result. */
  function Present(r: LookupResult): (v: View)
    ensures v.number == r.number
    ensures v.NotFoundView? <==> !r.found
    ensures v.NotFoundView? ==> v.message == r.error && v.note == NotFoundNote
  {
    if !r.found then NotFoundView(r.number, r.error, NotFoundNote)
    else
      var carrier :=
        if r.operator.Some? && r.operator.value.nom != Some("Inconnu") then
          var op := r.operator.value;
          CarrierDetails(op.nom, op.code, KeepTruthy(op.site), KeepTruthy(op.mail))
        else CarrierUnknown(r.codeOperateur);
      var location :=
        if r.location.Some? && r.location.value != Location(None, None)
        then Some(PresentLocation(r.location.value)) else None;
      FoundView(r.number, r.kind, r.prefix, carrier, location)
  }

  /** `print_result`'s return value. */
  function PrintResult(r: LookupResult): (shown: bool)
    ensures shown == r.found
  {
    Present(r).FoundView?
  }

  /** A miss is always shown with the fixed message and the open-data note. */
  lemma PresentMiss(db: Database, tel: string, validEmail: string -> bool)
    requires Search(db, tel) == None
    ensures Present(FullInfo(db, tel, validEmail)) == NotFoundView(tel, Some(NotFoundError), NotFoundNote)
  {
  }

  /** A geographic hit shows its region, with the "commune not available" note
      exactly when no commune was found; a non-geographic hit shows no
      location; a shown site or e-mail has passed validation. */
  lemma PresentHit(db: Database, tel: string, validEmail: string -> bool)
    requires FullInfo(db, tel, validEmail).found
    ensures var r := FullInfo(db, tel, validEmail);
            var v := Present(r);
            && v.FoundView?
            && (IsGeographic(tel) ==>
                  && v.location.Some?
                  && tel[..2] in RegionMap && v.location.value.region == Some(RegionMap[tel[..2]])
                  && (v.location.value.communeMissingNote <==> r.location.value.commune.None?))
            && (!IsGeographic(tel) ==> v.location == None)
            && (v.carrier.CarrierDetails? ==>
                  && (v.carrier.site.Some? ==> IsSafeSite(v.carrier.site.value))
                  && (v.carrier.mail.Some? ==> validEmail(v.carrier.mail.value)))
  {
    FullInfoOperator(db, tel, validEmail);
    if IsGeographic(tel) {
      FullInfoGeographicLocation(db, tel, validEmail);
      assert Truthy(Some(RegionMap[tel[..2]]));
    } else {
      FullInfoNonGeographicLocation(db, tel, validEmail);
    }
  }
}
