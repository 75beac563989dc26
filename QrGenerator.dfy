/**
 * The POST /generer handler of the QR generator (index.js): it normalises the
 * submitted URL, derives the image name, asks the QR encoder for the image and,
 * only if that succeeds, upserts one `name / url / image` line in the flat
 * file BD.txt (read, split, filter, append, rewrite).
 */
module QrGenerator {
  import opened Wrappers
  import opened JsString

  /** The URL as stored: `https://` is prepended unless it already has an http(s) scheme. */
  function NormalizeUrl(url: string): (r: string)
    ensures StartsWith(r, "http://") || StartsWith(r, "https://")
    ensures StartsWith(url, "http://") || StartsWith(url, "https://") ==> r == url
    ensures !StartsWith(url, "http://") && !StartsWith(url, "https://") ==> r == "https://" + url
  {
    if !StartsWith(url, "http://") && !StartsWith(url, "https://") then
      assert ("https://" + url)[..8] == "https://";
      "https://" + url
    else
      url
  }

  /** `qr_<name>.png` */
  function ImageName(name: string): string
  {
    "qr_" + name + ".png"
  }

  /** The record written for one site: `name / url / image`. */
  function RecordLine(name: string, url: string): string
  {
    name + " / " + url + " / " + ImageName(name)
  }

  /** What a line must start with to be treated as the site's previous record. */
  function KeyPrefix(name: string): string
  {
    name + " /"
  }

  /**
   * The filter callback: a line survives when its trimmed form is not empty
   * and it does not start with the key prefix. "Trimmed form not empty" is
   * stated as `!IsBlank(line)`, which the contract of `Trim` shows to be the
   * same test.
   */
  predicate Retained(line: string, name: string)
  {
    !IsBlank(line) && !StartsWith(line, KeyPrefix(name))
  }

  /** `Retained` is the source's test: the trimmed line is not empty and the line does not start with `name + " /"`. */
  lemma RetainedIsTrimTest(line: string, name: string)
    ensures Retained(line, name) <==> Trim(line) != "" && !StartsWith(line, name + " /")
  {
    assert Trim(line) == "" <==> IsBlank(line);
  }

  /**
   * A name holding a newline never matches: its key prefix holds a newline
   * and no piece of `split("\n")` does, so the old record is never dropped.
   */
  lemma NewlineNameNeverMatches(content: string, name: string)
    requires '\n' in name
    ensures forall i :: 0 <= i < |Split(content)| ==> !StartsWith(Split(content)[i], KeyPrefix(name))
  {
    var pieces := Split(content);
    var p := KeyPrefix(name);
    assert '\n' in p by {
      var k :| 0 <= k < |name| && name[k] == '\n';
      assert p[k] == '\n';
    }
    forall i | 0 <= i < |pieces| ensures !StartsWith(pieces[i], p) {
      if |p| <= |pieces[i]| {
        var head := pieces[i][..|p|];
        assert forall c :: c in head ==> c in pieces[i];
        assert '\n' !in head;
      }
    }
  }

  function RetainedFor(name: string): string -> bool
  {
    line => Retained(line, name)
  }

  /** The line's trimmed form is not empty. */
  predicate NotBlank(line: string)
  {
    !IsBlank(line)
  }

  /** The lines of the old store that the upsert keeps. */
  function Kept(lines: seq<string>, name: string): seq<string>
  {
    Filter(lines, RetainedFor(name))
  }

  /** The record line starts with the key prefix, is never blank and, for newline-free inputs, holds no newline. */
  lemma RecordLineShape(name: string, url: string)
    ensures StartsWith(RecordLine(name, url), KeyPrefix(name))
    ensures !IsBlank(RecordLine(name, url))
    ensures '\n' !in name && '\n' !in url ==> '\n' !in RecordLine(name, url)
  {
    var line := RecordLine(name, url);
    assert line == KeyPrefix(name) + (" " + url + " / " + ImageName(name));
    assert line[|name| + 1] == '/';
    if '\n' !in name && '\n' !in url {
      assert forall i :: 0 <= i < |line| ==> line[i] in name || line[i] in url || line[i] in " / qr_.png";
    }
  }

  /** The kept lines are exactly the old non-blank lines that do not start with the key prefix. */
  lemma KeptLines(lines: seq<string>, name: string)
    ensures forall i :: 0 <= i < |Kept(lines, name)| ==>
      !IsBlank(Kept(lines, name)[i]) && !StartsWith(Kept(lines, name)[i], KeyPrefix(name))
    ensures forall l :: multiset(Kept(lines, name))[l] ==
                        (if !IsBlank(l) && !StartsWith(l, KeyPrefix(name)) then multiset(lines)[l] else 0)
  {
    FilterSpec(lines, RetainedFor(name));
  }

  /** Appending the one marked, non-blank line to unmarked, non-blank lines makes it the only marked one. */
  lemma AppendMarked(kept: seq<string>, line: string, prefix: string)
    requires forall i :: 0 <= i < |kept| ==> !IsBlank(kept[i]) && !StartsWith(kept[i], prefix)
    requires StartsWith(line, prefix) && !IsBlank(line)
    ensures forall i :: 0 <= i < |kept + [line]| ==>
      (StartsWith((kept + [line])[i], prefix) <==> i == |kept|) && !IsBlank((kept + [line])[i])
  {
  }

  /** The line list after the upsert: the kept lines in their order, then the new record, last. */
  function UpsertLines(lines: seq<string>, name: string, url: string): (r: seq<string>)
    ensures |r| >= 1 && r[|r| - 1] == name + " / " + url + " / " + "qr_" + name + ".png"
  {
    Kept(lines, name) + [RecordLine(name, url)]
  }

  /** After an upsert exactly one line starts with `name + " /"`, the last one. */
  lemma UpsertUniqueKey(lines: seq<string>, name: string, url: string)
    ensures var r := UpsertLines(lines, name, url);
      forall i :: 0 <= i < |r| ==> (StartsWith(r[i], name + " /") <==> i == |r| - 1)
  {
    KeptLines(lines, name);
    RecordLineShape(name, url);
    AppendMarked(Kept(lines, name), RecordLine(name, url), KeyPrefix(name));
  }

  /** After an upsert no line is empty or whitespace-only. */
  lemma UpsertNoBlankLines(lines: seq<string>, name: string, url: string)
    ensures var r := UpsertLines(lines, name, url);
      forall i :: 0 <= i < |r| ==> !IsBlank(r[i])
  {
    KeptLines(lines, name);
    RecordLineShape(name, url);
    AppendMarked(Kept(lines, name), RecordLine(name, url), KeyPrefix(name));
  }

  /**
   * Before the new record stand exactly the old lines that are not blank and
   * do not start with `name + " /"`, each as often as before, in their old order.
   */
  lemma UpsertKeepsOthers(lines: seq<string>, name: string, url: string)
    ensures var r := UpsertLines(lines, name, url);
      && IsSubsequence(r[..|r| - 1], lines)
      && forall l :: multiset(r[..|r| - 1])[l] ==
                     (if !IsBlank(l) && !StartsWith(l, name + " /") then multiset(lines)[l] else 0)
  {
    var r := UpsertLines(lines, name, url);
    assert r[..|r| - 1] == Kept(lines, name);
    KeptLines(lines, name);
    FilterSpec(lines, RetainedFor(name));
  }

  /** What `writeFileSync` receives: the lines joined by "\n", plus a final "\n". */
  function Serialize(lines: seq<string>): string
  {
    Join(lines) + "\n"
  }

  /** Reading the store back: split on "\n" and drop the blank lines. */
  function Load(content: string): seq<string>
  {
    Filter(Split(content), NotBlank)
  }

  /** A missing BD.txt reads as the empty string. */
  function StoreContent(file: Option<string>): string
  {
    match file
    case None => ""
    case Some(content) => content
  }

  /** The new content of BD.txt after a successful generation for (name, url). */
  function UpsertContent(file: Option<string>, name: string, url: string): string
  {
    Serialize(UpsertLines(Split(StoreContent(file)), name, NormalizeUrl(url)))
  }

  lemma NotBlankKeepsAll(lines: seq<string>)
    requires forall i :: 0 <= i < |lines| ==> !IsBlank(lines[i])
    ensures Filter(lines, NotBlank) == lines
  {
    FilterKeepsAll(lines, NotBlank);
  }

  lemma EmptyLineDropped()
    ensures Filter([""], NotBlank) == []
  {
    FilterDropsAll([""], NotBlank);
  }

  lemma DropBlankTail(lines: seq<string>)
    requires forall i :: 0 <= i < |lines| ==> !IsBlank(lines[i])
    ensures Filter(lines + [""], NotBlank) == lines
  {
    var tail := Filter([""], NotBlank);
    assert tail == [] by {
      EmptyLineDropped();
    }
    assert Filter(lines, NotBlank) == lines by {
      NotBlankKeepsAll(lines);
    }
    FilterAppend(lines, [""], NotBlank);
    assert lines + tail == lines;
  }

  /** Round trip: loading what was written gives back the lines, when they are non-blank and newline-free. */
  lemma LoadSerialize(lines: seq<string>)
    requires forall i :: 0 <= i < |lines| ==> '\n' !in lines[i] && !IsBlank(lines[i])
    ensures Load(Serialize(lines)) == lines
  {
    if lines == [] {
      assert Serialize(lines) == "\n";
      assert Split("\n") == [""] + Split("");
      FilterDropsAll(["", ""], NotBlank);
    } else {
      SplitJoinNewline(lines);
      DropBlankTail(lines);
    }
  }

  /** The store after an upsert holds exactly the upserted line list, for newline-free name and URL. */
  lemma LoadAfterUpsert(file: Option<string>, name: string, url: string)
    requires '\n' !in name && '\n' !in url
    ensures Load(UpsertContent(file, name, url)) == UpsertLines(Split(StoreContent(file)), name, NormalizeUrl(url))
  {
    var r := UpsertLines(Split(StoreContent(file)), name, NormalizeUrl(url));
    NormalizeUrlNewlineFree(url);
    UpsertLinesNewlineFree(Split(StoreContent(file)), name, NormalizeUrl(url));
    UpsertNoBlankLines(Split(StoreContent(file)), name, NormalizeUrl(url));
    LoadSerialize(r);
  }

  lemma UpsertLinesNewlineFree(lines: seq<string>, name: string, url: string)
    requires forall i :: 0 <= i < |lines| ==> '\n' !in lines[i]
    requires '\n' !in name && '\n' !in url
    ensures forall i :: 0 <= i < |UpsertLines(lines, name, url)| ==> '\n' !in UpsertLines(lines, name, url)[i]
  {
    RecordLineShape(name, url);
    var kept := Kept(lines, name);
    FilterSpec(lines, RetainedFor(name));
  }

  lemma NormalizeUrlNewlineFree(url: string)
    requires '\n' !in url
    ensures '\n' !in NormalizeUrl(url)
  {
    var u := NormalizeUrl(url);
    if u != url {
      assert forall i :: 0 <= i < |u| ==> u[i] in url || u[i] in "https://";
    }
  }

  /** Filtering the written lines again for the same site gives back the kept lines. */
  lemma KeptAgain(kept: seq<string>, line: string, name: string)
    requires forall i :: 0 <= i < |kept| ==> RetainedFor(name)(kept[i])
    requires StartsWith(line, KeyPrefix(name))
    ensures Kept(kept + [line] + [""], name) == kept
  {
    FilterAppend(kept + [line], [""], RetainedFor(name));
    FilterAppend(kept, [line], RetainedFor(name));
    FilterKeepsAll(kept, RetainedFor(name));
    FilterDropsAll([line], RetainedFor(name));
    FilterDropsAll([""], RetainedFor(name));
  }

  /** Upserting the same (name, url) twice leaves the same content as upserting it once. */
  lemma UpsertIdempotent(file: Option<string>, name: string, url: string)
    requires '\n' !in name && '\n' !in url
    ensures UpsertContent(Some(UpsertContent(file, name, url)), name, url) == UpsertContent(file, name, url)
  {
    var u := NormalizeUrl(url);
    var prior := Split(StoreContent(file));
    var kept := Kept(prior, name);
    var line := RecordLine(name, u);
    var once := UpsertLines(prior, name, u);
    assert once == kept + [line];
    NormalizeUrlNewlineFree(url);
    UpsertLinesNewlineFree(prior, name, u);
    SplitJoinNewline(once);
    assert Split(StoreContent(Some(Serialize(once)))) == once + [""];
    RecordLineShape(name, u);
    KeptAgain(kept, line, name);
    assert UpsertLines(once + [""], name, u) == once;
  }

  /** Upserting into a missing store writes exactly the one record line. */
  lemma UpsertIntoMissingStore(name: string, url: string)
    ensures UpsertContent(None, name, url) == RecordLine(name, NormalizeUrl(url)) + "\n"
  {
    assert Split("") == [""];
    FilterDropsAll([""], RetainedFor(name));
  }

  /**
   * The key test is a prefix test: upserting site `name` also drops the
   * record of every site whose own name starts with `name + " /"` (site
   * "A /B" when "A" is upserted), not only the record of `name` itself.
   */
  lemma PrefixKeyDropsOtherSite(name: string, other: string, url: string)
    requires StartsWith(other, KeyPrefix(name))
    ensures Kept([RecordLine(other, url)], name) == []
  {
    var line := RecordLine(other, url);
    var p := KeyPrefix(name);
    assert line[..|other|] == other;
    assert line[..|p|] == other[..|p|];
    FilterDropsAll([line], RetainedFor(name));
  }

  /** Outcome of one POST /generer request. */
  datatype Outcome = Generated(name: string, url: string, image: string) | GenerationFailed

  /** The generator's durable state: the content of BD.txt, `None` while the file does not exist. */
  class Generator {
    var bd: Option<string>

    constructor (file: Option<string>)
      ensures bd == file
    {
      bd := file;
    }

    /**
     * Handles one POST /generer. `qrWritten` is whether the QR encoder
     * succeeded in writing the image; when it fails, BD.txt is neither read
     * nor written.
     */
    method Upsert(name: string, url: string, qrWritten: bool) returns (outcome: Outcome)
      modifies this
      ensures !qrWritten ==> outcome == GenerationFailed && bd == old(bd)
      ensures qrWritten ==> outcome == Generated(name, NormalizeUrl(url), ImageName(name))
      ensures qrWritten ==> bd == Some(UpsertContent(old(bd), name, url))
    {
      var urlSaisi := url;
      if !StartsWith(urlSaisi, "http://") && !StartsWith(urlSaisi, "https://") {
        urlSaisi := "https://" + urlSaisi;
      }
      var image := ImageName(name);
      if !qrWritten {
        return GenerationFailed;
      }
      var content := "";
      if bd.Some? {
        content := bd.value;
      }
      var lines := Kept(Split(content), name);
      lines := lines + [name + " / " + urlSaisi + " / " + image];
      bd := Some(Join(lines) + "\n");
      outcome := Generated(name, urlSaisi, image);
    }
  }
}
