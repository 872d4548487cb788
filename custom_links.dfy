/** "I open a custom link in the app for:": the title of the table's first
    column selects the kind of page, and the database lookups that turn the
    row's names into ids are inputs here. */
module CustomLinks {
  import opened Outcomes
  import opened PhpText

  /** The module names whose view page the step can open. */
  const ModuleTitles: set<string> := {
    "assign", "bigbluebuttonbn", "book", "chat", "choice", "data", "feedback",
    "folder", "forum", "glossary", "h5pactivity", "imscp", "label", "lesson",
    "lti", "page", "quiz", "resource", "scorm", "survey", "url", "wiki", "workshop"
  }

  /** The page a custom link points at. */
  datatype LinkTarget = Discussion(discussionId: nat) | ModuleView(modName: string, cmId: nat)

  const DiscussPath := "/discuss.php?d="
  const ViewPath := "/view.php?id="

  function InvalidTitle(title: string): string {
    "Invalid custom link title - " + title
  }

  /** The site-relative URL for a custom link; `discussionId` is the id of the
      forum discussion the row names and `cmId` the course-module id of the
      activity it names. */
  function CustomLinkUrl(title: string, discussionId: nat, cmId: nat): (r: Result<string>)
    ensures r.Failure? <==> title != "discussion" && title !in ModuleTitles
    ensures r.Failure? ==> r.msg == InvalidTitle(title)
  {
    if title == "discussion" then Success("/mod/forum" + DiscussPath + Decimal(discussionId))
    else if title in ModuleTitles then Success("/mod/" + title + ViewPath + Decimal(cmId))
    else Failure(InvalidTitle(title))
  }

  /** Index of the first '/' in `s`, or |s| when there is none. */
  function SlashIndex(s: string): (k: nat)
    ensures k <= |s| && '/' !in s[..k]
    ensures k < |s| ==> s[k] == '/'
  {
    if s == [] then 0
    else if s[0] == '/' then 0
    else
      var k := SlashIndex(s[1..]);
      assert s[..k + 1] == [s[0]] + s[1..][..k];
      k + 1
  }

  /** Reads back which page a "/mod/<name>/..." URL opens. */
  function ParseLink(url: string): Option<LinkTarget> {
    match AfterPrefix("/mod/", url)
    case None => None
    case Some(rest) =>
      var k := SlashIndex(rest);
      ParsePage(rest[..k], rest[k..])
  }

  /** The page part of a URL: the module name and what follows it. */
  function ParsePage(modName: string, tail: string): Option<LinkTarget> {
    match AfterPrefix(ViewPath, tail)
    case Some(digits) =>
      (match ParseDecimal(digits) case Some(n) => Some(ModuleView(modName, n)) case None => None)
    case None =>
      match AfterPrefix(DiscussPath, tail)
      case Some(digits) =>
        if modName == "forum" then
          (match ParseDecimal(digits) case Some(n) => Some(Discussion(n)) case None => None)
        else None
      case None => None
  }

  lemma ModuleTitlesHaveNoSlash(title: string)
    requires title in ModuleTitles
    ensures '/' !in title
  {
  }

  lemma SlashIndexAfter(modName: string, tail: string)
    requires '/' !in modName && |tail| > 0 && tail[0] == '/'
    ensures SlashIndex(modName + tail) == |modName|
  {
    var s := modName + tail;
    assert s[|modName|] == '/';
    assert s[..|modName|] == modName;
  }

  lemma ParseLinkSplits(modName: string, tail: string)
    requires '/' !in modName && |tail| > 0 && tail[0] == '/'
    ensures ParseLink("/mod/" + modName + tail) == ParsePage(modName, tail)
  {
    var rest := modName + tail;
    assert "/mod/" + modName + tail == "/mod/" + rest;
    AfterPrefixOfConcat("/mod/", rest);
    SlashIndexAfter(modName, tail);
    assert rest[..|modName|] == modName && rest[|modName|..] == tail;
  }

  lemma ParseViewPage(modName: string, id: nat)
    ensures ParsePage(modName, ViewPath + Decimal(id)) == Some(ModuleView(modName, id))
  {
    AfterPrefixOfConcat(ViewPath, Decimal(id));
    DecimalRoundTrip(id);
  }

  lemma ParseDiscussPage(id: nat)
    ensures ParsePage("forum", DiscussPath + Decimal(id)) == Some(Discussion(id))
  {
    var tail := DiscussPath + Decimal(id);
    assert tail[1] == 'd';
    assert AfterPrefix(ViewPath, tail).None?;
    AfterPrefixOfConcat(DiscussPath, Decimal(id));
    DecimalRoundTrip(id);
  }

  /** Every link the step builds reads back as the page it was meant to open,
      so different titles or ids never produce the same URL. */
  lemma CustomLinkRoundTrip(title: string, discussionId: nat, cmId: nat)
    requires CustomLinkUrl(title, discussionId, cmId).Success?
    ensures ParseLink(CustomLinkUrl(title, discussionId, cmId).value) ==
      Some(if title == "discussion" then Discussion(discussionId) else ModuleView(title, cmId))
  {
    if title == "discussion" {
      assert "/mod/forum" + DiscussPath + Decimal(discussionId) == "/mod/" + "forum" + (DiscussPath + Decimal(discussionId));
      ParseLinkSplits("forum", DiscussPath + Decimal(discussionId));
      ParseDiscussPage(discussionId);
    } else {
      ModuleTitlesHaveNoSlash(title);
      assert "/mod/" + title + ViewPath + Decimal(cmId) == "/mod/" + title + (ViewPath + Decimal(cmId));
      ParseLinkSplits(title, ViewPath + Decimal(cmId));
      ParseViewPage(title, cmId);
    }
  }
}
