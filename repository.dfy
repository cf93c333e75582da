/**
  RPM repository descriptors: a Repo record, the name of the file it is
  written to, and the key/value text block that describes it.
 */
module Repositories {
  import opened Wrappers
  import opened Text

  datatype Repo = Repo(name: string, repoLabel: string, url: string, prefix: string, enabled: bool)

  /** The descriptor file of a repo is named after its label: "<label>.repo". */
  function Filename(r: Repo): (f: string)
    ensures |f| == |r.repoLabel| + 5
    ensures f[..|r.repoLabel|] == r.repoLabel && f[|r.repoLabel|..] == ".repo"
  {
    r.repoLabel + ".repo"
  }

  /** Go's %t verb on a bool. */
  function EnabledText(enabled: bool): (t: string)
    ensures t == "true" || t == "false"
    ensures (t == "true") == enabled
  {
    if enabled then "true" else "false"
  }

  /** The lines of a repo's descriptor: the section header, name, baseurl,
      enabled, and prefix only when it is non-empty. */
  function DescriptorLines(r: Repo): (lines: seq<string>)
    ensures |lines| == (if |r.prefix| > 0 then 5 else 4)
  {
    ["[" + r.repoLabel + "]", "name=" + r.name, "baseurl=" + r.url, "enabled=" + EnabledText(r.enabled)]
    + (if |r.prefix| > 0 then ["prefix=" + r.prefix] else [])
  }

  /** The descriptor text: every descriptor line followed by '\n'. */
  function Descriptor(r: Repo): (text: string)
    ensures |text| > 0 && text[|text| - 1] == '\n'
  {
    Lines(DescriptorLines(r))
  }

  /** Repo.String: collect the lines as tokens, join them with '\n' and end
      the block with one more '\n'. */
  method Render(r: Repo) returns (text: string)
    ensures text == Descriptor(r)
  {
    var tokens: seq<string> := [];
    tokens := tokens + ["[" + r.repoLabel + "]"];
    tokens := tokens + ["name=" + r.name];
    tokens := tokens + ["baseurl=" + r.url];
    tokens := tokens + ["enabled=" + EnabledText(r.enabled)];
    if |r.prefix| > 0 {
      tokens := tokens + ["prefix=" + r.prefix];
    }
    text := JoinWith(tokens, "\n") + "\n";
    assert tokens == DescriptorLines(r);
    JoinThenNewline(tokens);
  }

  /** The fields contain no line breaks, so each lands on a line of its own. */
  predicate SingleLineFields(r: Repo)
  {
    '\n' !in r.name && '\n' !in r.repoLabel && '\n' !in r.url && '\n' !in r.prefix
  }

  /** Splitting a descriptor at '\n' gives back its four or five lines, then
      the empty piece after the final '\n'. */
  lemma DescriptorSplits(r: Repo)
    requires SingleLineFields(r)
    ensures SplitLines(Descriptor(r)) == DescriptorLines(r) + [""]
  {
    var lines := DescriptorLines(r);
    assert forall k :: 0 <= k < |lines| ==> '\n' !in lines[k];
    SplitTerminated(lines);
  }

  /** The value of a "key=value" line, when the line has that key. */
  function FieldValue(line: string, key: string): (v: Option<string>)
    ensures v.Some? <==> key <= line
    ensures v.Some? ==> line == key + v.value
  {
    if key <= line then Some(line[|key|..]) else None
  }

  /** Reads a descriptor back from its '\n'-separated pieces. */
  function ParseLines(lines: seq<string>): Option<Repo>
  {
    if |lines| < 5 || |lines| > 6 || lines[|lines| - 1] != "" then None
    else
      var header := lines[0];
      var name := FieldValue(lines[1], "name=");
      var url := FieldValue(lines[2], "baseurl=");
      var enabled := FieldValue(lines[3], "enabled=");
      var prefix := if |lines| == 6 then FieldValue(lines[4], "prefix=") else Some("");
      if |header| < 2 || header[0] != '[' || header[|header| - 1] != ']' then None
      else if name.None? || url.None? || prefix.None? then None
      else if enabled != Some("true") && enabled != Some("false") then None
      else if |lines| == 6 && prefix.value == "" then None
      else Some(Repo(name.value, header[1..|header| - 1], url.value, prefix.value, enabled == Some("true")))
  }

  /** Reads a descriptor back: the inverse of Descriptor. */
  function ParseDescriptor(text: string): Option<Repo>
  {
    ParseLines(SplitLines(text))
  }

  /** The header line "[label]" gives back its label. */
  lemma HeaderLabel(repoLabel: string)
    ensures var header := "[" + repoLabel + "]";
      && |header| >= 2 && header[0] == '[' && header[|header| - 1] == ']'
      && header[1..|header| - 1] == repoLabel
  {
    var header := "[" + repoLabel + "]";
    assert header[1..|header| - 1] == repoLabel;
  }

  /** A "key=value" line gives back its value under its own key. */
  lemma FieldValueOfLine(key: string, value: string)
    ensures FieldValue(key + value, key) == Some(value)
  {
    assert (key + value)[..|key|] == key;
    assert (key + value)[|key|..] == value;
  }

  /** The descriptor's lines, with the empty piece after the last '\n',
      read back as the repo. */
  lemma ParseDescriptorLines(r: Repo)
    ensures ParseLines(DescriptorLines(r) + [""]) == Some(r)
  {
    HeaderLabel(r.repoLabel);
    FieldValueOfLine("name=", r.name);
    FieldValueOfLine("baseurl=", r.url);
    FieldValueOfLine("enabled=", EnabledText(r.enabled));
    FieldValueOfLine("prefix=", r.prefix);
  }

  /** A descriptor determines the repo it was rendered from. */
  lemma DescriptorRoundTrip(r: Repo)
    requires SingleLineFields(r)
    ensures ParseDescriptor(Descriptor(r)) == Some(r)
  {
    DescriptorSplits(r);
    ParseDescriptorLines(r);
  }

  /** Two repos with single-line fields have the same descriptor only if they are equal. */
  lemma DescriptorInjective(r: Repo, s: Repo)
    requires SingleLineFields(r) && SingleLineFields(s)
    requires Descriptor(r) == Descriptor(s)
    ensures r == s
  {
    DescriptorRoundTrip(r);
    DescriptorRoundTrip(s);
  }

  /** A repo without a prefix renders as four newline-terminated lines. */
  lemma DescriptorWithoutPrefix()
    ensures DescriptorLines(Repo("Base Packages", "base", "http://example.com/repo", "", true))
      == ["[base]", "name=Base Packages", "baseurl=http://example.com/repo", "enabled=true"]
  {
    assert "[" + "base" + "]" == "[base]";
    assert "name=" + "Base Packages" == "name=Base Packages";
    assert "baseurl=" + "http://example.com/repo" == "baseurl=http://example.com/repo";
    assert "enabled=" + "true" == "enabled=true";
  }

  /** With a prefix, a fifth line "prefix=..." follows the enabled line. */
  lemma DescriptorWithPrefix()
    ensures DescriptorLines(Repo("Base Packages", "base", "http://example.com/repo", "/opt", true))
      == ["[base]", "name=Base Packages", "baseurl=http://example.com/repo", "enabled=true", "prefix=/opt"]
  {
    assert "[" + "base" + "]" == "[base]";
    assert "name=" + "Base Packages" == "name=Base Packages";
    assert "baseurl=" + "http://example.com/repo" == "baseurl=http://example.com/repo";
    assert "enabled=" + "true" == "enabled=true";
    assert "prefix=" + "/opt" == "prefix=/opt";
  }

  /** The descriptor file of the "updates" repo. */
  lemma FilenameOfUpdates()
    ensures Filename(Repo("Updates", "updates", "http://example.com/updates", "", false)) == "updates.repo"
  {
  }
}
