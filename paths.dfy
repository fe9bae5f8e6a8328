/** The path scheme of the DAC (src/dac.ts, `init` and the `[NUM]`
    substitution): every log kind has a fixed index key and a page-key
    template, and a page key is the template with the decimal page number in
    place of the first `[NUM]`. The lemmas show that no two different keys of
    the scheme coincide, so the two logs and the name dictionary never share a
    document, whatever the skapp domain is. */
module Paths {
  import opened Strings
  import opened Records

  const DATA_DOMAIN: string := "crqa.hns"
  const PAGE_REF: string := "[NUM]"

  const NEW_CONTENT_DIR: string := "/newcontent"
  const INTERACTIONS_DIR: string := "/interactions"

  /** The keys `init` computes for one skapp domain. */
  datatype FilePaths = FilePaths(
    skappsDictPath: string,
    ncIndexPath: string,
    ncPagePath: string,
    ciIndexPath: string,
    ciPagePath: string)

  /** `${DATA_DOMAIN}/${domain}`, the folder shared by both logs. */
  function LogBase(domain: string): string {
    DATA_DOMAIN + "/" + domain
  }

  function Dir(kind: EntryType): string {
    if kind == NewContent then NEW_CONTENT_DIR else INTERACTIONS_DIR
  }

  function IndexFile(base: string, dir: string): string {
    base + (dir + "/index.json")
  }

  function PageFile(base: string, dir: string): string {
    base + ((dir + "/page_") + (PAGE_REF + ".json"))
  }

  function MakePaths(domain: string): FilePaths {
    var base := LogBase(domain);
    FilePaths(
      skappsDictPath := DATA_DOMAIN + "/skapps.json",
      ncIndexPath := IndexFile(base, NEW_CONTENT_DIR),
      ncPagePath := PageFile(base, NEW_CONTENT_DIR),
      ciIndexPath := IndexFile(base, INTERACTIONS_DIR),
      ciPagePath := PageFile(base, INTERACTIONS_DIR))
  }

  /** A key of the log folder, as `${DATA_DOMAIN}/${domain}` followed by
      the rest of the template. */
  lemma InLogBase(domain: string, tail: string)
    ensures LogBase(domain) + tail == "crqa.hns/" + domain + tail
  {
    assert DATA_DOMAIN + "/" == "crqa.hns/";
  }

  /** The keys of `init`, written out as the source's templates: the
      dictionary key, then the two keys of each log. */
  lemma SkappsKey(domain: string)
    ensures MakePaths(domain).skappsDictPath == "crqa.hns/skapps.json"
  {
  }

  lemma NewContentKeys(domain: string)
    ensures var p := MakePaths(domain);
      IndexPath(p, NewContent) == "crqa.hns/" + domain + "/newcontent/index.json"
      && PageTemplate(p, NewContent) == "crqa.hns/" + domain + "/newcontent/page_[NUM].json"
  {
    var index, page := NEW_CONTENT_DIR + "/index.json", (NEW_CONTENT_DIR + "/page_") + (PAGE_REF + ".json");
    assert index == "/newcontent/index.json";
    assert page == "/newcontent/page_[NUM].json";
    InLogBase(domain, index);
    InLogBase(domain, page);
  }

  lemma InteractionsKeys(domain: string)
    ensures var p := MakePaths(domain);
      IndexPath(p, Interactions) == "crqa.hns/" + domain + "/interactions/index.json"
      && PageTemplate(p, Interactions) == "crqa.hns/" + domain + "/interactions/page_[NUM].json"
  {
    var index, page := INTERACTIONS_DIR + "/index.json", (INTERACTIONS_DIR + "/page_") + (PAGE_REF + ".json");
    assert index == "/interactions/index.json";
    assert page == "/interactions/page_[NUM].json";
    InLogBase(domain, index);
    InLogBase(domain, page);
  }

  /** The index key of a log kind. */
  function IndexPath(paths: FilePaths, kind: EntryType): string {
    if kind == NewContent then paths.ncIndexPath else paths.ciIndexPath
  }

  /** The page-key template of a log kind. */
  function PageTemplate(paths: FilePaths, kind: EntryType): string {
    if kind == NewContent then paths.ncPagePath else paths.ciPagePath
  }

  /** `pagePath.replace(PAGE_REF, String(n))`. */
  function PagePath(paths: FilePaths, kind: EntryType, n: nat): string {
    ReplaceFirst(PageTemplate(paths, kind), PAGE_REF, NatToString(n))
  }

  /** The file-name part of a page key up to the page number. */
  function PageStem(kind: EntryType): string {
    Dir(kind) + "/page_"
  }

  /** The page-key template after the domain. */
  function PageTail(kind: EntryType): string {
    PageStem(kind) + (PAGE_REF + ".json")
  }

  lemma TemplateSplits(domain: string, kind: EntryType)
    ensures PageTemplate(MakePaths(domain), kind) == LogBase(domain) + PageTail(kind)
    ensures PageTail(kind)[0] == '/' && '/' !in PAGE_REF
  {
    assert PageTail(kind)[0] == Dir(kind)[0];
  }

  lemma StemHasNoRef(kind: EntryType)
    ensures PAGE_REF[0] !in PageStem(kind)
  {
    assert '[' !in "/page_";
    if kind == NewContent {
      assert '[' !in "/newcontent";
    } else {
      assert '[' !in "/interactions";
    }
  }

  lemma RefFilled(d: string)
    ensures ReplaceFirst(PAGE_REF + ".json", PAGE_REF, d) == d + ".json"
  {
    var x := PAGE_REF + ".json";
    assert OccursAt(x, PAGE_REF, 0);
    ReplaceFirstAt(x, PAGE_REF, d, 0);
    assert x[..0] == "" && x[5..] == ".json";
  }

  /** Filling the template's own `[NUM]`. */
  lemma TailFilled(kind: EntryType, d: string)
    ensures ReplaceFirst(PageTail(kind), PAGE_REF, d) == PageStem(kind) + (d + ".json")
  {
    StemHasNoRef(kind);
    ReplaceFirstSkip(PageStem(kind), PAGE_REF + ".json", PAGE_REF, d);
    RefFilled(d);
  }

  /** What a page key looks like once the first `[NUM]` is replaced: when the
      domain itself holds no `[NUM]`, the number lands in the file name;
      otherwise it lands inside the domain and the file name keeps its
      `[NUM]`. */
  lemma PagePathShape(domain: string, kind: EntryType, n: nat)
    ensures var base, d := LogBase(domain), NatToString(n);
      IndexOf(base, PAGE_REF).None? ==>
        PagePath(MakePaths(domain), kind, n) == base + (PageStem(kind) + (d + ".json"))
    ensures var base, d := LogBase(domain), NatToString(n);
      IndexOf(base, PAGE_REF).Some? ==>
        PagePath(MakePaths(domain), kind, n) == ReplaceFirst(base, PAGE_REF, d) + PageTail(kind)
  {
    var base, d := LogBase(domain), NatToString(n);
    TemplateSplits(domain, kind);
    if IndexOf(base, PAGE_REF).Some? {
      ReplaceFirstInHead(base, PageTail(kind), PAGE_REF, d);
    } else {
      ReplaceFirstInTail(base, PageTail(kind), PAGE_REF, d);
      TailFilled(kind, d);
    }
  }

  lemma DifferAfter(p: string, u: string, v: string, j: nat)
    requires j < |u| && j < |v| && u[j] != v[j]
    ensures p + u != p + v
  {
    assert (p + u)[|p| + j] == u[j];
    assert (p + v)[|p| + j] == v[j];
  }

  lemma DifferBefore(u: string, t: string, v: string, w: string, j: nat)
    requires 1 <= j <= |t| && j <= |w| && t[|t| - j] != w[|w| - j]
    ensures u + t != v + w
  {
    var x, y := u + t, v + w;
    assert x[|x| - j] == t[|t| - j];
    if |x| == |y| {
      assert y[|y| - j] == w[|w| - j];
    }
  }

  lemma CancelPrefix(p: string, u: string, v: string)
    requires u != v
    ensures p + u != p + v
  {
    assert (p + u)[|p|..] == u;
    assert (p + v)[|p|..] == v;
  }

  lemma SameTailDiffer(a: string, b: string, t: string)
    requires a != b
    ensures a + t != b + t
  {
    assert (a + t)[..|a|] == a;
    assert (b + t)[..|b|] == b;
    assert |a| != |b| ==> |a + t| != |b + t|;
  }

  /** The characters of the two directory names the proofs below tell apart. */
  lemma DirChars()
    ensures Dir(NewContent)[1] == 'n' && Dir(Interactions)[1] == 'i'
    ensures Dir(NewContent)[|Dir(NewContent)| - 1] == 't'
    ensures Dir(Interactions)[|Dir(Interactions)| - 1] == 's'
    ensures |Dir(NewContent)| == 11 && |Dir(Interactions)| == 13
  {
  }

  /** The two index keys differ. */
  lemma IndexPathsDistinct(domain: string)
    ensures IndexPath(MakePaths(domain), NewContent) != IndexPath(MakePaths(domain), Interactions)
  {
    DirChars();
    DifferAfter(LogBase(domain), NEW_CONTENT_DIR + "/index.json", INTERACTIONS_DIR + "/index.json", 1);
  }

  /** No index key is a page key, of either kind. */
  lemma IndexPathNotPagePath(domain: string, k1: EntryType, k2: EntryType, n: nat)
    ensures IndexPath(MakePaths(domain), k1) != PagePath(MakePaths(domain), k2, n)
  {
    var base, d := LogBase(domain), NatToString(n);
    assert IndexPath(MakePaths(domain), k1) == base + (Dir(k1) + "/index.json");
    PagePathShape(domain, k2, n);
    if IndexOf(base, PAGE_REF).None? {
      IndexNotNumbered(base, k1, k2, d);
    } else {
      IndexNotTemplated(base, k1, ReplaceFirst(base, PAGE_REF, d), k2);
    }
  }

  lemma IndexNotNumbered(base: string, k1: EntryType, k2: EntryType, d: string)
    ensures base + (Dir(k1) + "/index.json") != base + (PageStem(k2) + (d + ".json"))
  {
    var u, v := Dir(k1) + "/index.json", PageStem(k2) + (d + ".json");
    DirChars();
    if k1 == k2 {
      var j := |Dir(k1)| + 1;
      assert u[j] == 'i' && v[j] == 'p';
      DifferAfter(base, u, v, j);
    } else {
      assert u[1] == Dir(k1)[1] && v[1] == Dir(k2)[1];
      DifferAfter(base, u, v, 1);
    }
  }

  lemma IndexNotTemplated(base: string, k1: EntryType, a: string, k2: EntryType)
    ensures base + (Dir(k1) + "/index.json") != a + PageTail(k2)
  {
    var u, t := Dir(k1) + "/index.json", PageTail(k2);
    assert u[|u| - 10] == 'i' && t[|t| - 10] == '[';
    DifferBefore(base, u, a, t, 10);
  }

  /** A page key determines its kind and its page number. */
  lemma PagePathInjective(domain: string, k1: EntryType, m: nat, k2: EntryType, n: nat)
    ensures PagePath(MakePaths(domain), k1, m) == PagePath(MakePaths(domain), k2, n) ==>
              k1 == k2 && m == n
  {
    PagePathShape(domain, k1, m);
    PagePathShape(domain, k2, n);
    var base := LogBase(domain);
    var dm, dn := NatToString(m), NatToString(n);
    if k1 != k2 || m != n {
      NatToStringInjective(m, n);
      if IndexOf(base, PAGE_REF).None? {
        NumberedFilesDiffer(base, k1, dm, k2, dn);
      } else {
        ReplaceFirstInjective(base, PAGE_REF, dm, dn);
        TemplatedFilesDiffer(ReplaceFirst(base, PAGE_REF, dm), k1, ReplaceFirst(base, PAGE_REF, dn), k2);
      }
    }
  }

  lemma NumberedFilesDiffer(base: string, k1: EntryType, dm: string, k2: EntryType, dn: string)
    requires k1 != k2 || dm != dn
    ensures base + (PageStem(k1) + (dm + ".json")) != base + (PageStem(k2) + (dn + ".json"))
  {
    var u, v := PageStem(k1) + (dm + ".json"), PageStem(k2) + (dn + ".json");
    DirChars();
    if k1 != k2 {
      assert u[1] == Dir(k1)[1] && v[1] == Dir(k2)[1];
      DifferAfter(base, u, v, 1);
    } else {
      SameTailDiffer(dm, dn, ".json");
      CancelPrefix(PageStem(k1), dm + ".json", dn + ".json");
      CancelPrefix(base, u, v);
    }
  }

  lemma TemplatedFilesDiffer(am: string, k1: EntryType, an: string, k2: EntryType)
    requires k1 != k2 || am != an
    ensures am + PageTail(k1) != an + PageTail(k2)
  {
    var t1, t2 := PageTail(k1), PageTail(k2);
    DirChars();
    if k1 != k2 {
      assert t1[|t1| - 17] == Dir(k1)[|Dir(k1)| - 1];
      assert t2[|t2| - 17] == Dir(k2)[|Dir(k2)| - 1];
      DifferBefore(am, t1, an, t2, 17);
    } else {
      SameTailDiffer(am, an, t1);
    }
  }

  /** The skapp-name dictionary is not a document of either log. */
  lemma SkappsPathNotLogKey(domain: string, kind: EntryType, n: nat)
    ensures MakePaths(domain).skappsDictPath != IndexPath(MakePaths(domain), kind)
    ensures MakePaths(domain).skappsDictPath != PagePath(MakePaths(domain), kind, n)
  {
    PagePathShape(domain, kind, n);
    assert |MakePaths(domain).skappsDictPath| == 20;
    assert |IndexPath(MakePaths(domain), kind)| >= 31;
    assert |PagePath(MakePaths(domain), kind, n)| >= 27;
  }
}
