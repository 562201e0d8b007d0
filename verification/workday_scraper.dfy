// Model of the pure and loop helpers of ref_data/disney_workday_scraper.py:
// the Unicode sanitiser, dotted-path lookup, de-duplication of links,
// the search path fix for pager URLs, the final sort and cut of the
// collected URLs, the normalisation of a Workday listing item and the
// retry decision of do_request. Fetching, parsing HTML and sleeping are
// outside the model; the server's answers are an oracle.

module WorkdayScraper {
  import opened Wrappers
  import opened Text
  import opened Json
  import opened Collections

  type Fields = map<string, Value>

  // ---------------------------------------------------------------------
  // _clean_string and _clean_obj

  const Nbsp: char := '\U{00A0}'

  /** ZERO_WIDTHS: zero width space, non-joiner, joiner and the BOM. The
      source iterates a set; removals of distinct characters commute, so
      any order gives the same text. */
  const ZeroWidths: seq<char> := ['\U{200B}', '\U{200C}', '\U{200D}', '\U{FEFF}']

  /** What sanitising does to one character. */
  function SanitizeChar(c: char): string {
    if c == Nbsp then " " else if c in ZeroWidths then "" else [c]
  }

  /** Character-by-character sanitising: the reference definition. */
  function Sanitized(s: string): string {
    if s == [] then [] else SanitizeChar(s[0]) + Sanitized(s[1..])
  }

  /** The removal loop over ZERO_WIDTHS. */
  function RemoveZeroWidths(s: string): string {
    var a := ReplaceAll(s, [ZeroWidths[0]], "");
    var b := ReplaceAll(a, [ZeroWidths[1]], "");
    var c := ReplaceAll(b, [ZeroWidths[2]], "");
    ReplaceAll(c, [ZeroWidths[3]], "")
  }

  predicate HasZeroWidth(s: string) {
    exists i :: 0 <= i < |ZeroWidths| && ZeroWidths[i] in s
  }

  /** _clean_string: NFC normalisation (the oracle `nfc`), then NBSP to a
      space and the zero-width characters removed, each step only when the
      character occurs; None stays None. */
  function CleanString(s: Option<string>, nfc: string -> string): (r: Option<string>)
    ensures r.None? <==> s.None?
    ensures r.Some? ==> r.value == Sanitized(nfc(s.value))
  {
    match s
    case None => None
    case Some(text) =>
      var t := nfc(text);
      var t1 := if Nbsp in t then ReplaceAll(t, [Nbsp], " ") else t;
      var t2 := if HasZeroWidth(t1) then RemoveZeroWidths(t1) else t1;
      CleanStringSteps(t);
      Some(t2)
  }

  /** The chain of replacements, guarded or not, is the per-character
      rule. */
  lemma CleanStringSteps(t: string)
    ensures var t1 := if Nbsp in t then ReplaceAll(t, [Nbsp], " ") else t;
      (if HasZeroWidth(t1) then RemoveZeroWidths(t1) else t1) == Sanitized(t)
  {
    if Nbsp !in t {
      ReplaceCharAbsent(t, Nbsp, " ");
    }
    var t1 := ReplaceAll(t, [Nbsp], " ");
    if !HasZeroWidth(t1) {
      ReplaceCharAbsent(t1, ZeroWidths[0], "");
      ReplaceCharAbsent(t1, ZeroWidths[1], "");
      ReplaceCharAbsent(t1, ZeroWidths[2], "");
      ReplaceCharAbsent(t1, ZeroWidths[3], "");
    }
    ChainIsSanitized(t);
  }

  function Chain(t: string): string {
    RemoveZeroWidths(ReplaceAll(t, [Nbsp], " "))
  }

  lemma ChainOne(x: char)
    ensures Chain([x]) == SanitizeChar(x)
  {
    ReplaceCharOne(x, Nbsp, " ");
    if x == Nbsp {
      ReplaceCharAbsent(" ", ZeroWidths[0], "");
      ReplaceCharAbsent(" ", ZeroWidths[1], "");
      ReplaceCharAbsent(" ", ZeroWidths[2], "");
      ReplaceCharAbsent(" ", ZeroWidths[3], "");
    } else {
      ReplaceCharOne(x, ZeroWidths[0], "");
      var a := ReplaceAll([x], [ZeroWidths[0]], "");
      if a == [] {
        ReplaceCharAbsent([], ZeroWidths[1], "");
        ReplaceCharAbsent([], ZeroWidths[2], "");
        ReplaceCharAbsent([], ZeroWidths[3], "");
      } else {
        ReplaceCharOne(x, ZeroWidths[1], "");
        var b := ReplaceAll(a, [ZeroWidths[1]], "");
        if b == [] {
          ReplaceCharAbsent([], ZeroWidths[2], "");
          ReplaceCharAbsent([], ZeroWidths[3], "");
        } else {
          ReplaceCharOne(x, ZeroWidths[2], "");
          var c := ReplaceAll(b, [ZeroWidths[2]], "");
          if c == [] {
            ReplaceCharAbsent([], ZeroWidths[3], "");
          } else {
            ReplaceCharOne(x, ZeroWidths[3], "");
          }
        }
      }
    }
  }

  lemma ChainConcat(a: string, b: string)
    ensures Chain(a + b) == Chain(a) + Chain(b)
  {
    ReplaceCharConcat(a, b, Nbsp, " ");
    var a0, b0 := ReplaceAll(a, [Nbsp], " "), ReplaceAll(b, [Nbsp], " ");
    ReplaceCharConcat(a0, b0, ZeroWidths[0], "");
    var a1, b1 := ReplaceAll(a0, [ZeroWidths[0]], ""), ReplaceAll(b0, [ZeroWidths[0]], "");
    ReplaceCharConcat(a1, b1, ZeroWidths[1], "");
    var a2, b2 := ReplaceAll(a1, [ZeroWidths[1]], ""), ReplaceAll(b1, [ZeroWidths[1]], "");
    ReplaceCharConcat(a2, b2, ZeroWidths[2], "");
    var a3, b3 := ReplaceAll(a2, [ZeroWidths[2]], ""), ReplaceAll(b2, [ZeroWidths[2]], "");
    ReplaceCharConcat(a3, b3, ZeroWidths[3], "");
  }

  lemma {:induction false} ChainIsSanitized(t: string)
    ensures Chain(t) == Sanitized(t)
    decreases |t|
  {
    if t != [] {
      assert t == [t[0]] + t[1..];
      ChainConcat([t[0]], t[1..]);
      ChainOne(t[0]);
      ChainIsSanitized(t[1..]);
    }
  }

  /** The sanitised text holds no NBSP and no zero-width character, and
      is never longer than the text. */
  lemma {:induction false} SanitizedIsClean(t: string)
    ensures Nbsp !in Sanitized(t) && !HasZeroWidth(Sanitized(t))
    ensures |Sanitized(t)| <= |t|
    decreases |t|
  {
    if t != [] {
      SanitizedIsClean(t[1..]);
      var h, r := SanitizeChar(t[0]), Sanitized(t[1..]);
      assert Nbsp !in h && forall i :: 0 <= i < |ZeroWidths| ==> ZeroWidths[i] !in h;
      assert forall c :: c in h + r ==> c in h || c in r;
    }
  }

  /** Text without NBSP and zero-width characters is left as it is. */
  lemma {:induction false} SanitizedPlain(t: string)
    requires Nbsp !in t && !HasZeroWidth(t)
    ensures Sanitized(t) == t
    decreases |t|
  {
    if t != [] {
      assert t[0] in t;
      assert forall c :: c in t[1..] ==> c in t;
      SanitizedPlain(t[1..]);
    }
  }

  /** _clean_obj: strings are cleaned, dicts and lists rebuilt with the
      same keys and the same order, every other value kept. */
  function CleanObj(v: Value, nfc: string -> string): (r: Value) {
    match v
    case Str(s) => Str(Sanitized(nfc(s)))
    case List(items) => List(seq(|items|, i requires 0 <= i < |items| => CleanObj(items[i], nfc)))
    case Object(fields) => Object(map k | k in fields :: CleanObj(fields[k], nfc))
    case _ => v
  }

  /** Two values with the same structure: same kind everywhere, same keys,
      same lengths, and equal non-string leaves. */
  predicate SameShape(a: Value, b: Value) {
    match a
    case Str(_) => b.Str?
    case List(xs) => b.List? && |xs| == |b.items| && forall i :: 0 <= i < |xs| ==> SameShape(xs[i], b.items[i])
    case Object(m) => b.Object? && m.Keys == b.fields.Keys && forall k :: k in m ==> SameShape(m[k], b.fields[k])
    case _ => a == b
  }

  /** Cleaning keeps the structure and cleans every string. */
  lemma {:induction false} CleanObjShape(v: Value, nfc: string -> string)
    ensures SameShape(v, CleanObj(v, nfc))
    ensures v.Str? ==> Some(CleanObj(v, nfc).s) == CleanString(Some(v.s), nfc)
  {
    match v
    case List(xs) =>
      forall i | 0 <= i < |xs| ensures SameShape(xs[i], CleanObj(v, nfc).items[i]) {
        CleanObjShape(xs[i], nfc);
      }
    case Object(m) =>
      forall k | k in m ensures SameShape(m[k], CleanObj(v, nfc).fields[k]) {
        CleanObjShape(m[k], nfc);
      }
    case _ =>
  }

  // ---------------------------------------------------------------------
  // _get_path and wd_get_nested

  /** Following a path of keys through nested dicts; None as soon as a
      key is missing or the value reached is not a dict. */
  function Walk(cur: Value, path: seq<string>): Option<Value> {
    if path == [] then Some(cur)
    else if cur.Object? && path[0] in cur.fields then Walk(cur.fields[path[0]], path[1..])
    else None
  }

  /** A path walked in two pieces. */
  lemma {:induction false} WalkAppend(v: Value, p: seq<string>, q: seq<string>)
    ensures Walk(v, p + q) == if Walk(v, p).Some? then Walk(Walk(v, p).value, q) else None
    decreases |p|
  {
    if p == [] {
      assert p + q == q;
    } else {
      assert (p + q)[0] == p[0] && (p + q)[1..] == p[1..] + q;
      if v.Object? && p[0] in v.fields {
        WalkAppend(v.fields[p[0]], p[1..], q);
      }
    }
  }

  /** A one-key path is a plain lookup. */
  lemma WalkOne(d: Fields, key: string)
    ensures Walk(Object(d), [key]) == Get(d, key)
  {
    assert [key][1..] == [];
  }

  /** _get_path: the stepping loop over the dotted path's parts; a missing
      part gives None (null). */
  method GetPath(d: Fields, dotted: string) returns (r: Value)
    ensures r == Walk(Object(d), Split(dotted, '.')).GetOr(Null)
  {
    var parts := Split(dotted, '.');
    var cur := Object(d);
    for i := 0 to |parts|
      invariant Walk(Object(d), parts) == Walk(cur, parts[i..])
    {
      assert parts[i..][0] == parts[i] && parts[i..][1..] == parts[i + 1..];
      if cur.Object? && parts[i] in cur.fields {
        cur := cur.fields[parts[i]];
      } else {
        return Null;
      }
    }
    assert parts[|parts|..] == [];
    r := cur;
  }

  /** wd_get_nested: the same walk with a default for a missing key. */
  method WdGetNested(d: Fields, path: seq<string>, default: Value) returns (r: Value)
    ensures r == Walk(Object(d), path).GetOr(default)
  {
    var cur := Object(d);
    for i := 0 to |path|
      invariant Walk(Object(d), path) == Walk(cur, path[i..])
    {
      assert path[i..][0] == path[i] && path[i..][1..] == path[i + 1..];
      if cur.Object? && path[i] in cur.fields {
        cur := cur.fields[path[i]];
      } else {
        return default;
      }
    }
    assert path[|path|..] == [];
    r := cur;
  }

  /** A dotted name without a dot is one key; "a.b" is the two keys. */
  lemma SplitDotted(a: string, b: string)
    requires '.' !in a && '.' !in b
    ensures Split(a, '.') == [a]
    ensures Split(a + "." + b, '.') == [a, b]
  {
    NoDotSplit(a);
    NoDotSplit(b);
    var s := a + "." + b;
    assert forall j :: 0 <= j < |a| ==> s[j] == a[j];
    assert s[|a|] == '.';
    assert IndexOf(s, '.') == |a|;
    assert s[..|a|] == a && s[|a| + 1..] == b;
  }

  lemma NoDotSplit(a: string)
    requires '.' !in a
    ensures Split(a, '.') == [a]
  {
    assert IndexOf(a, '.') == |a|;
  }

  // ---------------------------------------------------------------------
  // De-duplication of detail links and pager URLs

  /** The seen-set loop: each string at its first occurrence. */
  method Dedup(xs: seq<string>) returns (out: seq<string>)
    ensures out == Distinct(xs)
    ensures NoDuplicates(out) && forall x :: x in out <==> x in xs
    ensures forall i, j :: 0 <= i < j < |out| ==> FirstIndex(xs, out[i]) < FirstIndex(xs, out[j])
  {
    var seen: set<string> := {};
    out := [];
    for i := 0 to |xs|
      invariant out == Distinct(xs[..i])
      invariant forall x :: x in seen <==> x in xs[..i]
    {
      var h := xs[i];
      assert xs[..i + 1] == xs[..i] + [h];
      assert xs[..i + 1][..i] == xs[..i];
      if h !in seen {
        seen := seen + {h};
        out := out + [h];
      }
    }
    assert xs[..|xs|] == xs;
    DistinctOrder(xs);
  }

  // ---------------------------------------------------------------------
  // ensure_en_path

  /** A URL split into its five parts; splitting and joining are outside
      the model. */
  datatype Url = Url(scheme: string, netloc: string, path: string, query: string, fragment: string)

  const EnSearchPath: string := "/en/search-jobs"
  const SearchPath: string := "/search-jobs"

  /** ensure_en_path: keep a URL already on the English search path;
      otherwise rewrite "/search-jobs" to "/en/search-jobs" (or use it
      for an empty or root path) and default the scheme and host. */
  function EnsureEnPath(u: Url): (r: Url)
    ensures Contains(u.path, EnSearchPath) ==> r == u
    ensures !Contains(u.path, EnSearchPath) ==>
      && r.scheme == (if u.scheme == "" then "https" else u.scheme)
      && r.netloc == (if u.netloc == "" then "www.disneycareers.com" else u.netloc)
      && r.query == u.query && r.fragment == u.fragment
    ensures Contains(u.path, SearchPath) || u.path == "" || u.path == "/" ==> Contains(r.path, EnSearchPath)
    ensures !Contains(u.path, SearchPath) && u.path != "" && u.path != "/" ==> r.path == u.path
  {
    if Contains(u.path, EnSearchPath) then u
    else
      FixPathFacts(u.path);
      Url(if u.scheme == "" then "https" else u.scheme,
          if u.netloc == "" then "www.disneycareers.com" else u.netloc,
          FixPath(u.path), u.query, u.fragment)
  }

  /** The path rewrite of a URL not yet on the English search path. */
  function FixPath(p: string): string {
    if Contains(p, SearchPath) then ReplaceAll(p, SearchPath, EnSearchPath)
    else if p == "" || p == "/" then EnSearchPath
    else p
  }

  lemma FixPathFacts(p: string)
    ensures Contains(p, SearchPath) || p == "" || p == "/" ==> Contains(FixPath(p), EnSearchPath)
  {
    if Contains(p, SearchPath) {
      ReplaceIntroduces(p, SearchPath, EnSearchPath);
    } else if p == "" || p == "/" {
      assert StartsWith(EnSearchPath, EnSearchPath);
    }
  }

  /** Replacing an occurring pattern leaves the replacement in the text. */
  lemma {:induction false} ReplaceIntroduces(s: string, pat: string, rep: string)
    requires pat != [] && Contains(s, pat)
    ensures Contains(ReplaceAll(s, pat, rep), rep)
    decreases |s|
  {
    var r := ReplaceAll(s, pat, rep);
    if StartsWith(s, pat) {
      assert r[..|rep|] == rep;
    } else {
      ReplaceIntroduces(s[1..], pat, rep);
      assert r[1..] == ReplaceAll(s[1..], pat, rep);
    }
  }

  /** Fixing a fixed URL changes nothing more. */
  lemma EnsureEnPathIdempotent(u: Url)
    ensures EnsureEnPath(EnsureEnPath(u)) == EnsureEnPath(u)
  {
  }

  // ---------------------------------------------------------------------
  // The final step of html_collect_urls

  /** The least string of a non-empty set. */
  lemma {:induction false} LeastString(s: set<string>) returns (m: string)
    requires s != {}
    ensures m in s && forall x :: x in s ==> LexLeq(m, x)
    decreases |s|
  {
    var x := Pick(s);
    if s == {x} {
      m := x;
      LexLeqTotal(x, x);
    } else {
      var m' := LeastString(s - {x});
      LexLeqTotal(x, m');
      m := if LexLeq(m', x) then m' else x;
      forall y | y in s ensures LexLeq(m, y) {
        if y != x {
          assert y in s - {x};
          if m != m' {
            LexLeqTrans(m, m', y);
          }
        }
      }
    }
  }

  predicate Ascending(s: seq<string>) {
    forall i, j :: 0 <= i < j < |s| ==> LexLess(s[i], s[j])
  }

  /** sorted() of a set of strings: repeatedly take the least. */
  method SortedStrings(seen: set<string>) returns (out: seq<string>)
    ensures Ascending(out)
    ensures forall x :: x in out <==> x in seen
    ensures |out| == |seen|
  {
    out := [];
    var rest := seen;
    while rest != {}
      invariant forall x :: x in seen <==> x in rest || x in out
      invariant forall x :: x in rest ==> x !in out
      invariant |rest| + |out| == |seen|
      invariant Ascending(out)
      invariant forall x, i :: x in rest && 0 <= i < |out| ==> LexLess(out[i], x)
      decreases |rest|
    {
      ghost var least := LeastString(rest);
      var m :| m in rest && forall x :: x in rest ==> LexLeq(m, x);
      forall x | x in rest - {m} ensures LexLess(m, x) {
        LexLessIrreflexiveEq(m, x);
      }
      rest := rest - {m};
      out := out + [m];
    }
  }

  lemma LexLessIrreflexiveEq(a: string, b: string)
    requires LexLeq(a, b) && a != b
    ensures LexLess(a, b)
  {
  }

  /** `sorted(seen_urls)`, cut to max_items when that is given (non-zero;
      a negative value drops from the end, as a slice does). */
  method CollectUrls(seen: set<string>, maxItems: int) returns (urls: seq<string>)
    ensures Ascending(urls) && NoDuplicates(urls)
    ensures forall u :: u in urls ==> u in seen
    ensures maxItems == 0 ==> forall x :: x in seen <==> x in urls
    ensures maxItems > 0 ==> |urls| == if maxItems < |seen| then maxItems else |seen|
    ensures maxItems >= 0 ==> forall x, i :: x in seen && x !in urls && 0 <= i < |urls| ==> LexLess(urls[i], x)
  {
    var all := SortedStrings(seen);
    urls := if maxItems != 0 then PyPrefix(all, maxItems) else all;
    forall i, j | 0 <= i < j < |urls| ensures urls[i] != urls[j] {
      LexLessIrreflexive(urls[i], urls[j]);
    }
    forall x, i | x in seen && x !in urls && 0 <= i < |urls| && maxItems >= 0
      ensures LexLess(urls[i], x)
    {
      var k :| 0 <= k < |all| && all[k] == x;
      assert all[i] == urls[i];
      assert urls == all[..|urls|];
    }
  }

  // ---------------------------------------------------------------------
  // wd_normalize

  datatype NormalizeError = JoinTypeError

  /** `"/".join(locations)` on a truthy value: the strings of a list or
      the characters of a string; anything else raises. */
  function JoinLocations(v: Value): (r: Result<string, NormalizeError>)
    ensures r.Ok? <==> v.Str? || (v.List? && forall i :: 0 <= i < |v.items| ==> v.items[i].Str?)
    ensures v.List? && |v.items| == 1 && v.items[0].Str? ==> r == Ok(v.items[0].s)
  {
    match v
    case Str(s) => Ok(Join("/", seq(|s|, i requires 0 <= i < |s| => [s[i]])))
    case List(items) =>
      if forall i :: 0 <= i < |items| ==> items[i].Str? then
        Ok(Join("/", seq(|items|, i requires 0 <= i < |items| && items[i].Str? => items[i].s)))
      else Err(JoinTypeError)
    case _ => Err(JoinTypeError)
  }

  /** The requisition id shown: the first bullet field when bulletFields
      is a non-empty list, else jobId. */
  function DisplayId(item: Fields): (v: Value)
    ensures var bullets := GetOr(item, "bulletFields", Null);
      && (bullets.List? && bullets.items != [] ==> v == bullets.items[0])
      && (!(bullets.List? && bullets.items != []) ==> v == GetOr(item, "jobId", Null))
  {
    var bullets := Or(GetOr(item, "bulletFields", Null), List([]));
    if bullets.List? && bullets.items != [] then bullets.items[0] else GetOr(item, "jobId", Null)
  }

  /** The job URL: the Workday host followed by the external path when
      that is truthy (`show` is str() for a non-string path), else the
      listed jobUrl. */
  function JobUrl(item: Fields, host: string, show: Value -> string): (v: Value)
    ensures var ext := GetOr(item, "externalPath", Null);
      && (Truthy(ext) && ext.Str? ==> v == Str(host + ext.s))
      && (Truthy(ext) ==> v.Str? && StartsWith(v.s, host))
      && (!Truthy(ext) ==> v == GetOr(item, "jobUrl", Null))
  {
    var ext := GetOr(item, "externalPath", Null);
    if Truthy(ext) then
      var tail := if ext.Str? then ext.s else show(ext);
      assert (host + tail)[..|host|] == host;
      Str(host + tail)
    else GetOr(item, "jobUrl", Null)
  }

  /** locationsText, or else the joined locations when those are truthy,
      or else null. */
  function LocationsText(item: Fields): (r: Result<Value, NormalizeError>)
    ensures var text, locs := GetOr(item, "locationsText", Null), GetOr(item, "locations", Null);
      && (Truthy(text) ==> r == Ok(text))
      && (!Truthy(text) && !Truthy(locs) ==> r == Ok(Null))
      && (r.Err? <==> !Truthy(text) && Truthy(locs) && JoinLocations(locs).Err?)
      && (!Truthy(text) && r.Ok? && r.value != Null ==> r == Ok(Str(JoinLocations(locs).value)))
  {
    var text, locs := GetOr(item, "locationsText", Null), GetOr(item, "locations", Null);
    if Truthy(text) then Ok(text)
    else if !Truthy(locs) then Ok(Null)
    else match JoinLocations(Or(locs, List([])))
      case Ok(joined) => Ok(Str(joined))
      case Err(e) => Err(e)
  }

  /** The "detail" dict of a normalised job. */
  datatype Detail = Detail(brand: Value, businessUnit: Value, jobFamily: Value,
                           descriptionHtml: Value, qualificationsHtml: Value, locations: Value)

  /** The dict wd_normalize returns, one field per key. */
  datatype Normalized = Normalized(id: Value, displayRequisitionId: Value, title: Value, timeType: Value,
                                   postedOn: Value, locationsText: Value, jobUrl: Value, externalPath: Value,
                                   detail: Detail)

  /** wd_get_nested with its default of None. */
  function WalkOr(d: Fields, path: seq<string>): Value {
    Walk(Object(d), path).GetOr(Null)
  }

  /** The detail fields read from jobPostingInfo, or all null without a
      (truthy) detail document. */
  function DetailOf(detail: Option<Fields>): (r: Detail)
    ensures detail.None? || detail.value == map[] ==> r == Detail(Null, Null, Null, Null, Null, Null)
    ensures detail.Some? && detail.value != map[] ==>
      var info := detail.value;
      && r.brand == WalkOr(info, ["jobPostingInfo", "brand"])
      && r.businessUnit == WalkOr(info, ["jobPostingInfo", "businessUnit"])
      && r.jobFamily == WalkOr(info, ["jobPostingInfo", "jobFamily"])
      && r.descriptionHtml == WalkOr(info, ["jobPostingInfo", "jobDescription"])
      && r.qualificationsHtml == WalkOr(info, ["jobPostingInfo", "qualifications"])
      && r.locations == WalkOr(info, ["jobPostingInfo", "location"])
  {
    match detail
    case Some(info) =>
      if info == map[] then Detail(Null, Null, Null, Null, Null, Null)
      else
        Detail(WalkOr(info, ["jobPostingInfo", "brand"]), WalkOr(info, ["jobPostingInfo", "businessUnit"]),
               WalkOr(info, ["jobPostingInfo", "jobFamily"]), WalkOr(info, ["jobPostingInfo", "jobDescription"]),
               WalkOr(info, ["jobPostingInfo", "qualifications"]), WalkOr(info, ["jobPostingInfo", "location"]))
    case None => Detail(Null, Null, Null, Null, Null, Null)
  }

  /** wd_normalize: `host` is the scheme and host of the Workday base URL
      and `show` is Python's str() for a non-string external path. The
      only failure is the join of locations that are not strings. */
  function WdNormalize(item: Fields, detail: Option<Fields>, host: string, show: Value -> string)
    : (r: Result<Normalized, NormalizeError>)
    ensures r.Err? <==> LocationsText(item).Err?
    ensures r.Ok? ==>
      && r.value.id == GetOr(item, "id", Null)
      && r.value.title == Or(GetOr(item, "title", Null), GetOr(item, "jobName", Null))
      && r.value.postedOn == Or(GetOr(item, "postedOn", Null), GetOr(item, "datePosted", Null))
      && r.value.timeType == GetOr(item, "timeType", Null)
      && r.value.externalPath == GetOr(item, "externalPath", Null)
      && r.value.displayRequisitionId == DisplayId(item)
      && r.value.locationsText == LocationsText(item).value
      && r.value.jobUrl == JobUrl(item, host, show)
      && r.value.detail == DetailOf(detail)
  {
    match LocationsText(item)
    case Err(e) => Err(e)
    case Ok(locationsText) =>
      Ok(Normalized(
        GetOr(item, "id", Null),
        DisplayId(item),
        Or(GetOr(item, "title", Null), GetOr(item, "jobName", Null)),
        GetOr(item, "timeType", Null),
        Or(GetOr(item, "postedOn", Null), GetOr(item, "datePosted", Null)),
        locationsText,
        JobUrl(item, host, show),
        GetOr(item, "externalPath", Null),
        DetailOf(detail)))
  }

  /** A CSV column "a.b" reads field b of the nested dict a. */
  lemma DottedColumn(r: Fields, a: string, b: string)
    requires '.' !in a && '.' !in b
    ensures Walk(Object(r), Split(a + "." + b, '.')) ==
      if a in r && r[a].Object? && b in r[a].fields then Some(r[a].fields[b]) else None
  {
    SplitDotted(a, b);
    var v := Object(r);
    assert [a, b][0] == a && [a, b][1..] == [b];
    if a in r {
      assert Walk(v, [a, b]) == Walk(r[a], [b]);
      var u := r[a];
      assert [b][0] == b && [b][1..] == [];
      if u.Object? && b in u.fields {
        assert Walk(u, [b]) == Walk(u.fields[b], []);
      }
    }
  }

  // ---------------------------------------------------------------------
  // do_request

  /** What one call to the server gives: an exception or a status. */
  datatype Outcome = NetworkError | Response(status: int)

  const RetryStatus: set<int> := {429, 500, 502, 503, 504}

  datatype RequestError = Raised

  /** The attempts from `attempt` on: a network error is retried while
      attempt <= retries + 1 and raised after; a retry status is retried
      while attempt <= retries + 1; any other response is returned. The
      result comes with the number of the last attempt made. */
  function Attempts(respond: nat -> Outcome, retries: int, attempt: nat): (r: (Result<Outcome, RequestError>, nat))
    decreases if attempt <= retries + 1 then retries + 2 - attempt else 0
  {
    var o := respond(attempt);
    if attempt <= retries + 1 && (o.NetworkError? || o.status in RetryStatus) then Attempts(respond, retries, attempt + 1)
    else if o.NetworkError? then (Err(Raised), attempt)
    else (Ok(o), attempt)
  }

  /** do_request's loop; `respond` answers the n-th call. */
  method DoRequest(respond: nat -> Outcome, retries: int) returns (r: Result<Outcome, RequestError>, calls: nat)
    ensures (r, calls) == Attempts(respond, retries, 1)
  {
    var attempt: nat := 0;
    while true
      invariant Attempts(respond, retries, 1) == Attempts(respond, retries, attempt + 1)
      decreases retries + 2 - attempt
    {
      attempt := attempt + 1;
      var o := respond(attempt);
      if o.NetworkError? {
        if attempt > retries + 1 {
          return Err(Raised), attempt;
        }
        continue;
      }
      if o.status in RetryStatus && attempt <= retries + 1 {
        continue;
      }
      return Ok(o), attempt;
    }
  }

  /** At most retries + 2 calls (one when retries is below zero); every
      call before the last failed or asked for a retry; the last answer
      is returned unless it is a network error, which is raised; and a
      retry status or an error comes back only from the final attempt. */
  lemma {:induction false} AttemptsSpec(respond: nat -> Outcome, retries: int, attempt: nat)
    requires attempt >= 1
    ensures var (r, last) := Attempts(respond, retries, attempt);
      && attempt <= last && last <= (if retries + 2 > attempt then retries + 2 else attempt)
      && (forall j :: attempt <= j < last ==> respond(j).NetworkError? || respond(j).status in RetryStatus)
      && (r.Err? <==> respond(last).NetworkError?)
      && (r.Ok? ==> r.value == respond(last))
      && ((r.Err? || r.value.status in RetryStatus) ==> last == (if retries + 2 > attempt then retries + 2 else attempt))
    decreases if attempt <= retries + 1 then retries + 2 - attempt else 0
  {
    var o := respond(attempt);
    if attempt <= retries + 1 && (o.NetworkError? || o.status in RetryStatus) {
      AttemptsSpec(respond, retries, attempt + 1);
    }
  }
}
