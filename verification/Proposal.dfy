/** The text a group description is proposed to become. */
module Proposal {
  // The text a group description is proposed to become. An addition only ever extends what
  // is there, and proposing again over its own result changes nothing.

  import opened Wrappers
  import opened Unicode

  /** The hyphenated text of a workspace identity. */
  type WorkspaceId = s: string |
      |s| == 36 && forall c | c in s :: c == '-' || '0' <= c <= '9' || 'a' <= c <= 'f'
    witness seq(36, _ => '0')

  datatype Workspace = Workspace(id: WorkspaceId, title: string)

  datatype ProposalError = DescriptionFull

  const MAX_DESCRIPTION_BYTES := 4096
  const MAX_DESCRIPTION_UTF16 := 480

  function Url(id: WorkspaceId): string {
    "loom://workspace/" + id
  }

  /** Length of the leading run of characters that are not whitespace. */
  function WordLength(s: string): (n: nat)
    ensures n <= |s|
    ensures forall k | 0 <= k < n :: !IsWhitespace(s[k])
    ensures n < |s| ==> IsWhitespace(s[n])
  {
    if s == [] || IsWhitespace(s[0]) then 0 else 1 + WordLength(s[1..])
  }

  /** The maximal pieces of `s` between whitespace. */
  function Words(s: string): seq<string>
    decreases |s|
  {
    if s == [] then []
    else if IsWhitespace(s[0]) then Words(s[1..])
    else [s[..WordLength(s)]] + Words(s[WordLength(s)..])
  }

  function Propose(before: string, workspace: Workspace): (r: Result<string, ProposalError>)
    ensures r.Ok? ==> before <= r.value
  {
    var url := Url(workspace.id);
    if url in Words(before) then Ok(before)
    else
      var after := before + (if before == "" then "" else "\n\n") + workspace.title + "\n" + url;
      if Utf8Len(after) <= MAX_DESCRIPTION_BYTES && Utf16Len(after) <= MAX_DESCRIPTION_UTF16 then Ok(after)
      else Err(DescriptionFull)
  }

  lemma {:induction false} WordLengthBeforeGap(a: string, gap: char, b: string)
    requires IsWhitespace(gap)
    ensures WordLength(a + [gap] + b) == WordLength(a)
  {
    var whole := a + [gap] + b;
    if a != [] && !IsWhitespace(a[0]) {
      assert whole[1..] == a[1..] + [gap] + b;
      WordLengthBeforeGap(a[1..], gap, b);
    }
  }

  lemma {:induction false} WordsAcrossGap(a: string, gap: char, b: string)
    requires IsWhitespace(gap)
    ensures Words(a + [gap] + b) == Words(a) + Words(b)
    decreases |a|
  {
    var whole := a + [gap] + b;
    if a == [] {
      assert whole[1..] == b;
    } else if IsWhitespace(a[0]) {
      assert whole[1..] == a[1..] + [gap] + b;
      WordsAcrossGap(a[1..], gap, b);
    } else {
      WordLengthBeforeGap(a, gap, b);
      var n := WordLength(a);
      assert whole[..n] == a[..n];
      assert whole[n..] == a[n..] + [gap] + b;
      WordsAcrossGap(a[n..], gap, b);
      assert Words(whole) == [a[..n]] + (Words(a[n..]) + Words(b));
    }
  }

  lemma UrlIsOneWord(id: WorkspaceId)
    ensures Words(Url(id)) == [Url(id)]
  {
    var url := Url(id);
    forall k | 0 <= k < |url| ensures !IsWhitespace(url[k]) {
      if k >= 17 { assert url[k] == id[k - 17]; assert url[k] in id; }
    }
    assert WordLength(url) == |url|;
    assert url[..|url|] == url;
  }

  /** A proposal that was accepted once is found again, so a repeated preview is a no-op. */
  lemma ProposingTwiceIsStable(before: string, workspace: Workspace)
    requires Propose(before, workspace).Ok?
    ensures Url(workspace.id) in Words(Propose(before, workspace).value)
    ensures Propose(Propose(before, workspace).value, workspace) == Propose(before, workspace)
  {
    var url := Url(workspace.id);
    if url !in Words(before) {
      var head := before + (if before == "" then "" else "\n\n") + workspace.title;
      WordsAcrossGap(head, '\n', url);
      UrlIsOneWord(workspace.id);
      assert url in Words(head) + [url];
    }
  }

  /** The title stands in words of its own behind the old text. */
  lemma TitleFollows(before: string, title: string)
    ensures Words(before + (if before == "" then "" else "\n\n") + title) == Words(before) + Words(title)
  {
    if before == "" {
      assert before + "" + title == title && Words(before) + Words(title) == Words(title);
    } else {
      var rest := "\n" + title;
      assert before + "\n\n" + title == before + ['\n'] + rest && rest[1..] == title;
      WordsAcrossGap(before, '\n', rest);
    }
  }

  /** An addition leaves every word that was there in its place and adds those of the title and the link. */
  lemma AddsTitleAndLink(before: string, workspace: Workspace)
    requires Propose(before, workspace).Ok?
    ensures var after, url := Propose(before, workspace).value, Url(workspace.id);
            if url in Words(before) then after == before
            else
              && before < after && Words(after) == Words(before) + Words(workspace.title) + [url]
              && Utf8Len(after) <= MAX_DESCRIPTION_BYTES && Utf16Len(after) <= MAX_DESCRIPTION_UTF16
  {
    if Url(workspace.id) !in Words(before) { WordsOfAddition(before, workspace.title, workspace.id); }
  }

  lemma WordsOfAddition(before: string, title: string, id: WorkspaceId)
    ensures Words(before + (if before == "" then "" else "\n\n") + title + "\n" + Url(id))
            == Words(before) + Words(title) + [Url(id)]
  {
    TitleFollows(before, title);
    WordsAcrossGap(before + (if before == "" then "" else "\n\n") + title, '\n', Url(id));
    UrlIsOneWord(id);
  }
}
