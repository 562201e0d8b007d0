// Model of soupboss/export.py: the HTML escaping used by every HTML
// report, the score bands of the match tables, the choice of query,
// default file name and writer in export_match_results (and the same
// empty-or-unknown-format dispatch of the job and resume exports), the
// rows of the match table, the stripped resume records of the JSON export
// and the formats a summary report accepts.
module Export {
  import opened Wrappers
  import opened Text
  import opened Json

  // ---------------------------------------------------------------------
  // _html_escape

  /** The entity each character becomes; other characters stay. */
  function EscapeChar(c: char): string {
    if c == '&' then "&amp;"
    else if c == '<' then "&lt;"
    else if c == '>' then "&gt;"
    else if c == '"' then "&quot;"
    else if c == '\'' then "&#x27;"
    else [c]
  }

  /** Character-by-character escaping: the reference definition. */
  function Escaped(s: string): string {
    if s == [] then [] else EscapeChar(s[0]) + Escaped(s[1..])
  }

  /** The five str.replace calls, in the order they are chained. */
  function ReplaceChain(s: string): string {
    var a := ReplaceAll(s, "&", "&amp;");
    var b := ReplaceAll(a, "<", "&lt;");
    var c := ReplaceAll(b, ">", "&gt;");
    var d := ReplaceAll(c, "\"", "&quot;");
    ReplaceAll(d, "'", "&#x27;")
  }

  /** _html_escape on the optional text a report cell holds: None and the
      empty string give the empty string. */
  function HtmlEscape(text: Option<string>): (r: string)
    ensures text.None? || text.value == [] ==> r == []
    ensures text.Some? && text.value != [] ==> r == Escaped(text.value)
  {
    if text.None? || text.value == [] then []
    else
      ReplaceChainIsEscaped(text.value);
      ReplaceChain(text.value)
  }

  /** The chain turns one character into its entity: '&' goes first, so
      the '&' the later replacements insert is never escaped again. */
  lemma ReplaceChainOne(x: char)
    ensures ReplaceChain([x]) == EscapeChar(x)
  {
    ReplaceCharOne(x, '&', "&amp;");
    if x == '&' {
      ReplaceCharAbsent("&amp;", '<', "&lt;");
      ReplaceCharAbsent("&amp;", '>', "&gt;");
      ReplaceCharAbsent("&amp;", '"', "&quot;");
      ReplaceCharAbsent("&amp;", '\'', "&#x27;");
    } else if x == '<' {
      ReplaceCharOne(x, '<', "&lt;");
      ReplaceCharAbsent("&lt;", '>', "&gt;");
      ReplaceCharAbsent("&lt;", '"', "&quot;");
      ReplaceCharAbsent("&lt;", '\'', "&#x27;");
    } else if x == '>' {
      ReplaceCharOne(x, '<', "&lt;");
      ReplaceCharOne(x, '>', "&gt;");
      ReplaceCharAbsent("&gt;", '"', "&quot;");
      ReplaceCharAbsent("&gt;", '\'', "&#x27;");
    } else if x == '"' {
      ReplaceCharOne(x, '<', "&lt;");
      ReplaceCharOne(x, '>', "&gt;");
      ReplaceCharOne(x, '"', "&quot;");
      ReplaceCharAbsent("&quot;", '\'', "&#x27;");
    } else {
      ReplaceCharOne(x, '<', "&lt;");
      ReplaceCharOne(x, '>', "&gt;");
      ReplaceCharOne(x, '"', "&quot;");
      ReplaceCharOne(x, '\'', "&#x27;");
    }
  }

  lemma ReplaceChainConcat(a: string, b: string)
    ensures ReplaceChain(a + b) == ReplaceChain(a) + ReplaceChain(b)
  {
    ReplaceCharConcat(a, b, '&', "&amp;");
    var a1, b1 := ReplaceAll(a, "&", "&amp;"), ReplaceAll(b, "&", "&amp;");
    ReplaceCharConcat(a1, b1, '<', "&lt;");
    var a2, b2 := ReplaceAll(a1, "<", "&lt;"), ReplaceAll(b1, "<", "&lt;");
    ReplaceCharConcat(a2, b2, '>', "&gt;");
    var a3, b3 := ReplaceAll(a2, ">", "&gt;"), ReplaceAll(b2, ">", "&gt;");
    ReplaceCharConcat(a3, b3, '"', "&quot;");
    var a4, b4 := ReplaceAll(a3, "\"", "&quot;"), ReplaceAll(b3, "\"", "&quot;");
    ReplaceCharConcat(a4, b4, '\'', "&#x27;");
  }

  /** The chained replacements escape each character independently. */
  lemma {:induction false} ReplaceChainIsEscaped(s: string)
    ensures ReplaceChain(s) == Escaped(s)
    decreases |s|
  {
    if s != [] {
      assert s == [s[0]] + s[1..];
      ReplaceChainConcat([s[0]], s[1..]);
      ReplaceChainOne(s[0]);
      ReplaceChainIsEscaped(s[1..]);
    }
  }

  predicate Special(c: char) {
    c == '&' || c == '<' || c == '>' || c == '"' || c == '\''
  }

  lemma {:induction false} EscapedConcat(a: string, b: string)
    ensures Escaped(a + b) == Escaped(a) + Escaped(b)
    decreases |a|
  {
    if a == [] {
      assert a + b == b;
    } else {
      assert (a + b)[1..] == a[1..] + b;
      assert (a + b)[0] == a[0];
      EscapedConcat(a[1..], b);
    }
  }

  /** The escaped text holds no raw '<', '>', '"' or "'", and each '&' in
      it starts an entity. */
  lemma {:induction false} EscapedHasNoMarkup(s: string)
    ensures forall i :: 0 <= i < |Escaped(s)| ==> !Special(Escaped(s)[i]) || Escaped(s)[i] == '&'
    ensures forall i :: 0 <= i < |Escaped(s)| && Escaped(s)[i] == '&' ==> i + 1 < |Escaped(s)|
    decreases |s|
  {
    if s != [] {
      EscapedHasNoMarkup(s[1..]);
      var e, r := EscapeChar(s[0]), Escaped(s[1..]);
      assert Escaped(s) == e + r;
      assert forall i :: 0 <= i < |e| ==> !Special(e[i]) || e[i] == '&';
      assert forall i :: 0 <= i < |e| && e[i] == '&' ==> i + 1 < |e|;
      assert forall i :: |e| <= i < |e + r| ==> (e + r)[i] == r[i - |e|];
    }
  }

  /** Text without any of & < > " ' comes back unchanged. */
  lemma {:induction false} EscapedPlain(s: string)
    requires forall i :: 0 <= i < |s| ==> !Special(s[i])
    ensures Escaped(s) == s
    decreases |s|
  {
    if s != [] {
      EscapedPlain(s[1..]);
    }
  }

  /** The entity s starts with, as the character it stands for and its
      length. */
  function Entity(s: string): (r: Option<(char, nat)>)
    ensures r.Some? ==> 0 < r.value.1 <= |s|
  {
    if StartsWith(s, "&amp;") then Some(('&', 5))
    else if StartsWith(s, "&lt;") then Some(('<', 4))
    else if StartsWith(s, "&gt;") then Some(('>', 4))
    else if StartsWith(s, "&quot;") then Some(('"', 6))
    else if StartsWith(s, "&#x27;") then Some(('\'', 6))
    else None
  }

  /** Reading the entities back: the inverse of escaping. */
  function Unescape(s: string): string
    decreases |s|
  {
    if s == [] then []
    else match Entity(s)
      case Some((c, n)) => [c] + Unescape(s[n..])
      case None => [s[0]] + Unescape(s[1..])
  }

  /** The entity an escaped character starts with. */
  lemma EntityOfEscaped(x: char, rest: string)
    ensures Entity(EscapeChar(x) + rest) == if Special(x) then Some((x, |EscapeChar(x)|)) else None
  {
    var t := EscapeChar(x) + rest;
    if x == '&' {
      assert t[..5] == "&amp;";
    } else if x == '<' {
      assert t[..4] == "&lt;";
      assert t[1] == 'l';
    } else if x == '>' {
      assert t[..4] == "&gt;";
      assert t[1] == 'g';
    } else if x == '"' {
      assert t[..6] == "&quot;";
      assert t[1] == 'q';
    } else if x == '\'' {
      assert t[..6] == "&#x27;";
      assert t[1] == '#';
    } else {
      assert t[0] == x;
    }
  }

  /** Reading back one escaped character. */
  lemma UnescapeOne(x: char, rest: string)
    ensures Unescape(EscapeChar(x) + rest) == [x] + Unescape(rest)
  {
    var t := EscapeChar(x) + rest;
    EntityOfEscaped(x, rest);
    assert t[|EscapeChar(x)|..] == rest;
    if !Special(x) {
      assert t[0] == x && t[1..] == rest;
    }
  }

  /** Escaping loses nothing: distinct texts escape to distinct texts. */
  lemma {:induction false} UnescapeEscaped(s: string)
    ensures Unescape(Escaped(s)) == s
    decreases |s|
  {
    if s != [] {
      UnescapeEscaped(s[1..]);
      UnescapeOne(s[0], Escaped(s[1..]));
      assert s == [s[0]] + s[1..];
    }
  }

  // ---------------------------------------------------------------------
  // Score bands of the match tables

  datatype Band = High | Medium | Low

  /** The CSS class of a similarity score. */
  function ScoreBand(score: real): (b: Band)
    ensures b == High <==> score >= 0.6
    ensures b == Low <==> score < 0.4
  {
    if score >= 0.6 then High else if score >= 0.4 then Medium else Low
  }

  function BandClass(b: Band): string {
    match b
    case High => "high-score"
    case Medium => "medium-score"
    case Low => "low-score"
  }

  function BandRank(b: Band): nat {
    match b
    case High => 2
    case Medium => 1
    case Low => 0
  }

  /** A higher score never gets a lower band. */
  lemma ScoreBandMonotone(a: real, b: real)
    requires a <= b
    ensures BandRank(ScoreBand(a)) <= BandRank(ScoreBand(b))
  {
  }

  // ---------------------------------------------------------------------
  // export_match_results and the dispatch shared by the exports

  datatype Format = Csv | JsonFile | Html

  function FormatName(f: Format): string {
    match f
    case Csv => "csv"
    case JsonFile => "json"
    case Html => "html"
  }

  /** The writer a format string selects. */
  function ParseFormat(s: string): (r: Option<Format>)
    ensures r.Some? <==> s in {"csv", "json", "html"}
  {
    if s == "csv" then Some(Csv)
    else if s == "json" then Some(JsonFile)
    else if s == "html" then Some(Html)
    else None
  }

  lemma FormatRoundTrip(f: Format, s: string)
    ensures ParseFormat(FormatName(f)) == Some(f)
    ensures ParseFormat(s).Some? ==> FormatName(ParseFormat(s).value) == s
  {
  }

  datatype ExportError = UnsupportedFormat(format: string)

  /** What an export does with the rows it fetched: nothing when there are
      none (returning ""), whatever the format; otherwise the writer of
      the format, or ValueError for an unknown one. Ok(None) is the empty
      return. */
  function Dispatch<T>(format: string, rows: seq<T>): (r: Result<Option<Format>, ExportError>)
    ensures rows == [] ==> r == Ok(None)
    ensures rows != [] ==> (r == Err(UnsupportedFormat(format)) <==> ParseFormat(format).None?)
    ensures rows != [] && r.Ok? ==> r.value.Some? && FormatName(r.value.value) == format
  {
    if rows == [] then Ok(None)
    else match ParseFormat(format)
      case None => Err(UnsupportedFormat(format))
      case Some(f) => Ok(Some(f))
  }

  /** Which matches are fetched: one resume's when resume_id is truthy,
      otherwise all; `limit or 50` and `limit or 100`. */
  datatype Query = ResumeMatches(resumeId: int, limit: int) | AllMatches(limit: int)

  function MatchQuery(resumeId: Option<int>, limit: Option<int>): (q: Query)
    ensures q.ResumeMatches? <==> resumeId.Some? && resumeId.value != 0
    ensures q.ResumeMatches? ==> q.resumeId == resumeId.value
    ensures limit.Some? && limit.value != 0 ==> q.limit == limit.value
    ensures (limit.None? || limit.value == 0) ==> q.limit == if q.ResumeMatches? then 50 else 100
  {
    var given := limit.Some? && limit.value != 0;
    if resumeId.Some? && resumeId.value != 0 then ResumeMatches(resumeId.value, if given then limit.value else 50)
    else AllMatches(if given then limit.value else 100)
  }

  /** The default file name soupboss_matches[_resume_<id>]_<timestamp>.<format>. */
  function DefaultMatchesPath(resumeId: Option<int>, timestamp: string, format: string): (p: string)
    ensures StartsWith(p, "soupboss_matches")
    ensures EndsWith(p, "." + format)
    ensures resumeId.Some? && resumeId.value != 0 ==>
      StartsWith(p, "soupboss_matches" + ("_resume_" + IntToString(resumeId.value)) + "_")
    ensures resumeId.None? || resumeId.value == 0 ==> StartsWith(p, "soupboss_matches" + "_" + timestamp + ".")
  {
    if resumeId.Some? && resumeId.value != 0 then
      var suffix := "_resume_" + IntToString(resumeId.value);
      PathAffixes("soupboss_matches", suffix, "_", timestamp, ".", format);
      "soupboss_matches" + suffix + "_" + timestamp + "." + format
    else
      var p := "soupboss_matches" + "_" + timestamp + "." + format;
      PathAffixes("soupboss_matches", "", "_", timestamp, ".", format);
      assert "soupboss_matches" + "" == "soupboss_matches";
      p
  }

  /** The parts of a name made of pieces, for any pieces. */
  lemma PathAffixes(pre: string, suffix: string, sep: string, timestamp: string, dot: string, format: string)
    ensures var p := pre + suffix + sep + timestamp + dot + format;
      && StartsWith(p, pre) && EndsWith(p, dot + format)
      && StartsWith(p, pre + suffix + sep + timestamp + dot)
      && StartsWith(p, pre + suffix + sep)
  {
    var a := pre + suffix + sep;
    var b := a + timestamp + dot;
    var p := b + format;
    Affixes(b, format);
    Affixes(a + timestamp, dot);
    Affixes(a, timestamp);
    Affixes(pre + suffix, sep);
    Affixes(pre, suffix);
    PrefixTrans(p, b, a + timestamp);
    PrefixTrans(p, a + timestamp, a);
    PrefixTrans(p, a, pre + suffix);
    PrefixTrans(p, pre + suffix, pre);
    assert p == (a + timestamp) + (dot + format);
    Affixes(a + timestamp, dot + format);
  }

  lemma PrefixTrans(p: string, b: string, a: string)
    requires StartsWith(p, b) && StartsWith(b, a)
    ensures StartsWith(p, a)
  {
    assert p[..|a|] == p[..|b|][..|a|];
  }

  lemma Affixes(a: string, b: string)
    ensures StartsWith(a + b, a) && EndsWith(a + b, b)
  {
    assert (a + b)[..|a|] == a;
    assert (a + b)[|a|..] == b;
  }

  /** One row of the match tables: the joined columns of a match result. */
  datatype MatchRow = MatchRow(
    resumeId: int, resumeName: Option<string>, jobId: int, jobTitle: Option<string>,
    companyName: Option<string>, department: Option<string>, location: Option<string>,
    similarity: real, adjusted: Option<real>)

  /** `round(adjusted_score, 4) if adjusted_score else None`: a missing or
      zero adjusted score is exported as None. */
  function ExportedAdjusted(adjusted: Option<real>): (r: Option<real>)
    ensures r.None? <==> adjusted.None? || adjusted.value == 0.0
    ensures r.Some? ==> r.value == adjusted.value
  {
    if adjusted.Some? && adjusted.value != 0.0 then adjusted else None
  }

  /** export_match_results once the rows are fetched by `fetch`. */
  function ExportMatchResults(format: string, resumeId: Option<int>, limit: Option<int>, fetch: Query -> seq<MatchRow>)
    : (r: Result<Option<Format>, ExportError>)
    ensures r == Ok(None) <==> fetch(MatchQuery(resumeId, limit)) == []
    ensures r.Err? <==> fetch(MatchQuery(resumeId, limit)) != [] && ParseFormat(format).None?
  {
    Dispatch(format, fetch(MatchQuery(resumeId, limit)))
  }

  /** generate_summary_report: only HTML and JSON; there is no empty case. */
  datatype SummaryError = SummaryFormatUnsupported

  function SummaryFormat(format: string): (r: Result<Format, SummaryError>)
    ensures r.Ok? <==> format == "html" || format == "json"
    ensures r.Ok? ==> FormatName(r.value) == format
  {
    if format == "html" then Ok(Html)
    else if format == "json" then Ok(JsonFile)
    else Err(SummaryFormatUnsupported)
  }

  // ---------------------------------------------------------------------
  // Rows of the HTML match table

  /** `x or 'N/A'`. */
  function OrNA(x: Option<string>): string {
    if x.None? || x.value == [] then "N/A" else x.value
  }

  /** An escaped cell holds no angle bracket. */
  lemma EscapeNoAngle(text: Option<string>)
    ensures !('<' in HtmlEscape(text)) && !('>' in HtmlEscape(text))
  {
    if text.Some? && text.value != [] {
      EscapedHasNoMarkup(text.value);
    }
  }

  /** The escaped text cells of one row, in column order. */
  function RowCells(r: MatchRow): (cells: seq<string>)
    ensures |cells| == 5
    ensures forall i :: 0 <= i < 5 ==> !('<' in cells[i]) && !('>' in cells[i])
  {
    EscapeNoAngle(r.resumeName);
    EscapeNoAngle(r.jobTitle);
    EscapeNoAngle(r.companyName);
    EscapeNoAngle(Some(OrNA(r.department)));
    EscapeNoAngle(Some(OrNA(r.location)));
    [HtmlEscape(r.resumeName), HtmlEscape(r.jobTitle), HtmlEscape(r.companyName),
     HtmlEscape(Some(OrNA(r.department))), HtmlEscape(Some(OrNA(r.location)))]
  }

  /** The markup of the rank-th row; `fmt` renders the score with three
      decimals. */
  function RowHtml(rank: nat, r: MatchRow, fmt: real -> string): string {
    var c := RowCells(r);
    "\n            <tr>\n                <td>" + NatToString(rank) + "</td>\n"
    + "                <td class=\"score " + BandClass(ScoreBand(r.similarity)) + "\">" + fmt(r.similarity) + "</td>\n"
    + "                <td>" + c[0] + "</td>\n"
    + "                <td>" + c[1] + "</td>\n"
    + "                <td>" + c[2] + "</td>\n"
    + "                <td>" + c[3] + "</td>\n"
    + "                <td>" + c[4] + "</td>\n"
    + "            </tr>\n"
  }

  /** The rows of results ranked from 1 in their order. */
  function RowsHtml(results: seq<MatchRow>, fmt: real -> string): string {
    if results == [] then ""
    else RowsHtml(results[..|results| - 1], fmt) + RowHtml(|results|, results[|results| - 1], fmt)
  }

  /** The loop of _export_matches_html that appends one row per result. */
  method MatchTableRows(results: seq<MatchRow>, fmt: real -> string) returns (html: string)
    ensures html == RowsHtml(results, fmt)
  {
    html := "";
    for i := 0 to |results|
      invariant html == RowsHtml(results[..i], fmt)
    {
      assert results[..i + 1][..i] == results[..i];
      html := html + RowHtml(i + 1, results[i], fmt);
    }
    assert results[..|results|] == results;
  }

  // ---------------------------------------------------------------------
  // _export_resumes_json

  type Record = map<string, Value>

  datatype ResumesExport = ResumesExport(generatedAt: string, totalResumes: nat, resumes: seq<Record>)

  /** Copies of the resume records without content_text; every other field
      is kept with its value. */
  method ExportResumesJson(resumes: seq<Record>, generatedAt: string) returns (data: ResumesExport)
    ensures data.generatedAt == generatedAt && data.totalResumes == |resumes|
    ensures |data.resumes| == |resumes|
    ensures forall i :: 0 <= i < |resumes| ==> data.resumes[i].Keys == resumes[i].Keys - {"content_text"}
    ensures forall i, k :: 0 <= i < |resumes| && k in data.resumes[i] ==> data.resumes[i][k] == resumes[i][k]
  {
    var out: seq<Record> := [];
    for i := 0 to |resumes|
      invariant |out| == i
      invariant forall j :: 0 <= j < i ==> out[j] == resumes[j] - {"content_text"}
    {
      var copy := resumes[i] - {"content_text"};
      out := out + [copy];
    }
    data := ResumesExport(generatedAt, |resumes|, out);
  }
}
