// Model of soupboss/resumes.py: file validation and file information,
// the naming and storing of a processed resume, the content preview and
// the resume statistics.

module Resumes {
  import opened Wrappers
  import opened Text
  import opened Collections
  import opened Store

  /** MAX_FILE_SIZE: 10 MiB. */
  const MaxFileSize: int := 10 * 1024 * 1024

  /** SUPPORTED_EXTENSIONS, compared after lowercasing. */
  predicate Supported(suffix: string) {
    Lower(suffix) in {".pdf", ".txt", ".md", ".docx"}
  }

  /** What the file system says about a path: whether it exists, whether
      it is a regular file, its name, stem and suffix, and its size. */
  datatype PathInfo = PathInfo(present: bool, isFile: bool, name: string, stem: string, suffix: string, size: nat)

  datatype FileError = Missing | NotAFile | Unsupported(suffix: string) | TooLarge(size: nat) | EmptyFile

  /** _validate_file: the first failing check, or None. */
  function ValidateFile(p: PathInfo): (r: Option<FileError>)
    ensures r == Some(Missing) <==> !p.present
    ensures r == Some(NotAFile) <==> p.present && !p.isFile
    ensures r == Some(Unsupported(p.suffix)) <==> p.present && p.isFile && !Supported(p.suffix)
    ensures r == Some(TooLarge(p.size)) <==> p.present && p.isFile && Supported(p.suffix) && p.size > MaxFileSize
    ensures r == Some(EmptyFile) <==> p.present && p.isFile && Supported(p.suffix) && p.size == 0
    ensures r.None? <==> p.present && p.isFile && Supported(p.suffix) && 0 < p.size <= MaxFileSize
  {
    if !p.present then Some(Missing)
    else if !p.isFile then Some(NotAFile)
    else if !Supported(p.suffix) then Some(Unsupported(p.suffix))
    else if p.size > MaxFileSize then Some(TooLarge(p.size))
    else if p.size == 0 then Some(EmptyFile)
    else None
  }

  /** get_file_info without the rounded size in megabytes. */
  datatype FileInfo =
    | FileNotFound
    | Info(name: string, size: nat, extension: string, supported: bool, tooLarge: bool)

  function GetFileInfo(p: PathInfo): (r: FileInfo)
    ensures r.FileNotFound? <==> !p.present
  {
    if !p.present then FileNotFound
    else Info(p.name, p.size, Lower(p.suffix), Lower(p.suffix) in {".pdf", ".txt", ".md", ".docx"}, p.size > MaxFileSize)
  }

  /** The information agrees with validation: a regular file passes it
      exactly when its information says supported, not too large and not
      empty. A file of exactly 10 MiB is accepted, one byte more is not. */
  lemma FileInfoAgreesWithValidation(p: PathInfo)
    requires p.present && p.isFile
    ensures var info := GetFileInfo(p);
      ValidateFile(p).None? <==> info.supported && !info.tooLarge && info.size > 0
    ensures p.size == MaxFileSize ==> !GetFileInfo(p).tooLarge
    ensures p.size == MaxFileSize + 1 ==> GetFileInfo(p).tooLarge
  {
  }

  /** Letter case of the suffix does not matter. */
  lemma SupportedIgnoresCase(p: PathInfo, q: PathInfo)
    requires p.present && q.present && p.isFile && q.isFile && p.size == q.size
    requires Lower(p.suffix) == Lower(q.suffix)
    ensures ValidateFile(p).None? <==> ValidateFile(q).None?
  {
  }

  /** file_type: the lowercased suffix without its dot. */
  function FileType(suffix: string): (r: string)
    requires |suffix| > 0
  {
    Lower(suffix)[1..]
  }

  lemma FileTypeOfSupported(suffix: string)
    requires Supported(suffix)
    ensures FileType(suffix) in {"pdf", "txt", "md", "docx"}
    ensures "." + FileType(suffix) == Lower(suffix)
  {
  }

  /** process_resume_file: validate, default the name to the file stem,
      reject text that is blank once stripped, then store the resume.
      `extracted` is the extracted text, or None when extraction raised;
      absPath is the absolute path of the file. */
  method ProcessResumeFile(db: SoupBossDb, p: PathInfo, name: Option<string>, extracted: Option<string>, absPath: string)
    returns (id: Option<int>)
    requires db.Valid()
    modifies db
    ensures db.Valid()
    ensures id.Some? <==> ValidateFile(p).None? && extracted.Some? && Strip(extracted.value) != []
    ensures id.Some? ==>
      var chosen := if name.None? || name.value == [] then p.stem else name.value;
      id.value !in old(db.resumes)
      && db.resumes == old(db.resumes)[id.value := Resume(chosen, absPath, extracted, FileType(p.suffix), p.size)]
    ensures id.None? ==> db.resumes == old(db.resumes) && db.resumeSeq == old(db.resumeSeq)
    ensures db.companies == old(db.companies) && db.jobs == old(db.jobs) && db.matches == old(db.matches)
    ensures db.jobEmb == old(db.jobEmb) && db.resumeEmb == old(db.resumeEmb)
  {
    if ValidateFile(p).Some? {
      return None;
    }
    var chosen := if name.None? || name.value == [] then p.stem else name.value;
    if extracted.None? || Strip(extracted.value) == [] {
      return None;
    }
    var fileType := FileType(p.suffix);
    var newId := db.AddResume(chosen, absPath, extracted.value, fileType, p.size);
    id := Some(newId);
  }

  predicate IsBreak(c: char) {
    c == '.' || c == '\n'
  }

  /** get_resume_preview on a content string: content that fits is
      returned as it is; otherwise the window of maxLength characters is
      cut just after its last '.' or newline when that lies beyond 70% of
      the window, and "..." is appended. */
  function Preview(content: string, maxLength: int): (r: string)
    ensures 0 <= maxLength && |content| <= maxLength ==> r == content
    ensures 0 <= maxLength < |content| ==>
      && |r| >= 3 && r[|r| - 3..] == "..."
      && |r| - 3 <= maxLength && r[..|r| - 3] == content[..|r| - 3]
  {
    if |content| <= maxLength then content
    else
      var window := PyPrefix(content, maxLength);
      var dot, newline := RFind(window, '.'), RFind(window, '\n');
      var breakPoint := if dot >= newline then dot else newline;
      var preview := if breakPoint as real > maxLength as real * 0.7 then PyPrefix(content, breakPoint + 1) else window;
      if |content| > |preview| then preview + "..." else preview
  }

  /** Where a long content is cut: at the window's end when no '.' or
      newline lies beyond 70% of it, otherwise just after the last one. */
  lemma PreviewCut(content: string, maxLength: int)
    requires 0 <= maxLength < |content|
    ensures (forall j :: 0 <= j < maxLength && j as real > maxLength as real * 0.7 ==> !IsBreak(content[j]))
      ==> Preview(content, maxLength) == content[..maxLength] + "..."
    ensures forall j :: 0 <= j < maxLength && j as real > maxLength as real * 0.7 && IsBreak(content[j])
                   && (forall k :: j < k < maxLength ==> !IsBreak(content[k]))
                   ==> Preview(content, maxLength) == content[..j + 1] + "..."
  {
    if forall j :: 0 <= j < maxLength && j as real > maxLength as real * 0.7 ==> !IsBreak(content[j]) {
      PreviewNoBreak(content, maxLength);
    }
    forall j | 0 <= j < maxLength && j as real > maxLength as real * 0.7 && IsBreak(content[j])
               && (forall k :: j < k < maxLength ==> !IsBreak(content[k]))
      ensures Preview(content, maxLength) == content[..j + 1] + "..."
    {
      PreviewAtBreak(content, maxLength, j);
    }
  }

  lemma PreviewNoBreak(content: string, maxLength: int)
    requires 0 <= maxLength < |content|
    requires forall j :: 0 <= j < maxLength && j as real > maxLength as real * 0.7 ==> !IsBreak(content[j])
    ensures Preview(content, maxLength) == content[..maxLength] + "..."
  {
    var window := PyPrefix(content, maxLength);
    var dot, newline := RFind(window, '.'), RFind(window, '\n');
    assert dot >= 0 ==> IsBreak(content[dot]);
    assert newline >= 0 ==> IsBreak(content[newline]);
  }

  lemma PreviewAtBreak(content: string, maxLength: int, j: int)
    requires 0 <= j < maxLength < |content|
    requires j as real > maxLength as real * 0.7 && IsBreak(content[j])
    requires forall k :: j < k < maxLength ==> !IsBreak(content[k])
    ensures Preview(content, maxLength) == content[..j + 1] + "..."
  {
    var window := PyPrefix(content, maxLength);
    var dot, newline := RFind(window, '.'), RFind(window, '\n');
    assert window[j] == content[j];
    if content[j] == '.' {
      assert dot == j;
    } else {
      assert newline == j;
    }
  }

  datatype PreviewError = NullContent

  /** get_resume_preview: None for a missing resume; a NULL content_text
      makes len() raise. */
  function GetResumePreview(db: SoupBossDb, id: int, maxLength: int): (r: Result<Option<string>, PreviewError>)
    reads db
    ensures r == Ok(None) <==> id !in db.resumes
    ensures r.Err? <==> id in db.resumes && db.resumes[id].contentText.None?
    ensures r.Ok? && r.value.Some? ==> r.value.value == Preview(db.resumes[id].contentText.value, maxLength)
  {
    match db.GetResume(id)
    case None => Ok(None)
    case Some(resume) =>
      match resume.contentText
      case None => Err(NullContent)
      case Some(content) => Ok(Some(Preview(content, maxLength)))
  }

  /** The file types of a list of resumes, in order. */
  function Types(rs: seq<Resume>): (ts: seq<string>)
    ensures |ts| == |rs| && forall i :: 0 <= i < |rs| ==> ts[i] == rs[i].fileType
  {
    seq(|rs|, i requires 0 <= i < |rs| => rs[i].fileType)
  }

  function TotalSize(rs: seq<Resume>): int {
    if rs == [] then 0 else TotalSize(rs[..|rs| - 1]) + rs[|rs| - 1].fileSize
  }

  /** get_stats without the rounding of the size to megabytes. */
  datatype Stats = Stats(total: nat, byType: map<string, nat>, totalSize: int)

  /** The counting loop of get_stats over the listed resumes. */
  method Summarise(rs: seq<Resume>) returns (s: Stats)
    ensures s.total == |rs|
    ensures s.byType == Tally(Types(rs))
    ensures s.totalSize == TotalSize(rs)
  {
    if rs == [] {
      return Stats(0, map[], 0);
    }
    var byType: map<string, nat> := map[];
    var totalSize := 0;
    for i := 0 to |rs|
      invariant byType == Tally(Types(rs[..i]))
      invariant totalSize == TotalSize(rs[..i])
    {
      var t := rs[i].fileType;
      assert Types(rs[..i + 1]) == Types(rs[..i]) + [t];
      assert rs[..i + 1][..i] == rs[..i];
      byType := Bump(byType, Types(rs[..i]), t);
      totalSize := totalSize + rs[i].fileSize;
    }
    assert rs[..|rs|] == rs;
    s := Stats(|rs|, byType, totalSize);
  }

  /** The per-type counts are the number of resumes of each type and add
      up to the total. */
  lemma StatsCountsSum(rs: seq<Resume>)
    ensures forall t :: t in Tally(Types(rs)) ==> Tally(Types(rs))[t] == multiset(Types(rs))[t]
    ensures SumCounts(Distinct(Types(rs)), multiset(Types(rs))) == |rs|
  {
    TallyTotal(Types(rs));
  }

  /** The stored resumes of the listed ids, in list order. */
  function ResumesAt(resumes: map<int, Resume>, ids: seq<int>): (rs: seq<Resume>)
    requires forall i :: 0 <= i < |ids| ==> ids[i] in resumes
    ensures |rs| == |ids| && forall i :: 0 <= i < |ids| ==> rs[i] == resumes[ids[i]]
  {
    seq(|ids|, i requires 0 <= i < |ids| => resumes[ids[i]])
  }

  /** get_stats: counts every stored resume, listed once each in ids: the
      count of each type is the number of listed resumes of that type, the
      counts add up to the total, and the size is the sum of the sizes. */
  method GetStats(db: SoupBossDb) returns (s: Stats, ghost ids: seq<int>)
    ensures NoDuplicates(ids) && forall id :: id in ids <==> id in db.resumes
    ensures forall i :: 0 <= i < |ids| ==> ids[i] in db.resumes
    ensures s.total == |db.resumes|
    ensures forall t :: t in s.byType <==> exists id :: id in db.resumes && db.resumes[id].fileType == t
    ensures var types := Types(ResumesAt(db.resumes, ids));
      && (forall t :: t in s.byType ==> s.byType[t] == multiset(types)[t])
      && SumCounts(Distinct(types), multiset(types)) == s.total
    ensures s.totalSize == TotalSize(ResumesAt(db.resumes, ids))
    ensures s.total == 0 ==> s.byType == map[] && s.totalSize == 0
  {
    var listed := db.GetResumes();
    ids := listed;
    var resumes := db.resumes;
    assert forall i :: 0 <= i < |listed| ==> listed[i] in listed && listed[i] in resumes;
    var rs := seq(|listed|, i requires 0 <= i < |listed| => resumes[listed[i]]);
    assert rs == ResumesAt(db.resumes, ids);
    s := Summarise(rs);
    StatsCountsSum(rs);
    forall t | t in s.byType
      ensures exists id :: id in db.resumes && db.resumes[id].fileType == t
    {
      var i :| 0 <= i < |rs| && Types(rs)[i] == t;
      assert ids[i] in resumes && resumes[ids[i]].fileType == t;
    }
    forall t | exists id :: id in db.resumes && db.resumes[id].fileType == t
      ensures t in s.byType
    {
      var id :| id in db.resumes && db.resumes[id].fileType == t;
      var i :| 0 <= i < |ids| && ids[i] == id;
      assert rs[i] == resumes[id];
      assert Types(rs)[i] == t;
    }
  }
}
