/**
 The markdown article pages: the file-name guard, the page for one article,
 and the sorted listing of the article directory. The directory and its files
 are parameters: the file contents as a map from resolved path to text (a path
 with no readable text is absent), and the directory listing as the sequence
 of its entry names (`None` for a name that is not valid Unicode).
 */
module Articles {
  import opened Models
  import opened Http
  import Paths
  import Lex

  predicate EndsWith(s: string, suffix: string) {
    |suffix| <= |s| && s[|s| - |suffix|..] == suffix
  }

  predicate HasDotDot(s: string) {
    exists i :: 0 <= i < |s| - 1 && s[i] == '.' && s[i + 1] == '.'
  }

  /** A name free of both separator characters has no separator in the sense
      of path resolution. */
  lemma {:induction false} SeparatorFree(name: string)
    ensures '/' !in name && '\\' !in name ==> Paths.NoSeparator(name)
  {
    if '/' !in name && '\\' !in name {
      forall i | 0 <= i < |name|
        ensures !Paths.IsSeparator(name[i])
      {
        assert name[i] in name;
      }
    }
  }

  /** The guard of the article page: a `.md` name with no separator of either
      kind and no `..` anywhere. A name that passes is a plain path component,
      so it cannot name anything but a file directly inside the article
      directory. */
  function IsSafeMarkdownName(name: string): (ok: bool)
    ensures ok ==> Paths.Plain(name)
  {
    SeparatorFree(name);
    EndsWith(name, ".md") && '/' !in name && '\\' !in name && !HasDotDot(name)
  }

  /** The guard's verdict on the names the traversal discussion turns on. */
  lemma GuardExamples()
    ensures !IsSafeMarkdownName("../secret.md")
    ensures !IsSafeMarkdownName("notes.txt")
    ensures IsSafeMarkdownName("real.md")
  {
    assert "../secret.md"[2] == '/';
    assert "notes.txt"[6..] != ".md";
    assert "real.md"[4..] == ".md";
    assert !HasDotDot("real.md") by {
      forall i | 0 <= i < 6
        ensures !("real.md"[i] == '.' && "real.md"[i + 1] == '.')
      {
      }
    }
  }

  /** The page a readable article is shown in. The name goes into the heading
      as it is; only the content is escaped. */
  function Page(name: string, escaped: string): (page: string)
    ensures |page| == |name| + |escaped| + 55
    ensures page[..4 + |name|] == "<h1>" + name
    ensures EndsWith(page, "<pre>" + escaped + "</pre>")
  {
    "<h1>" + name + "</h1><p><a href=\"/articles\">Back</a></p><pre>" + escaped + "</pre>"
  }

  /** The paths the handler opened and what it answered. */
  datatype View = View(accessed: seq<Paths.Path>, reply: Result<Reply<string>, StatusCode>)

  /** `view_article`: the guard first, then one read of the joined path. */
  function ViewArticle(dir: Paths.Path, name: string, files: map<Paths.Path, string>, escape: string -> string)
    : (v: View)
    ensures !IsSafeMarkdownName(name) ==> v == View([], Failure(BadRequest))
    ensures IsSafeMarkdownName(name) ==> |v.accessed| == 1 && v.accessed[0] == dir + [name]
    ensures IsSafeMarkdownName(name) ==> (v.reply.Failure? <==> dir + [name] !in files)
    ensures IsSafeMarkdownName(name) && v.reply.Failure? ==> v.reply.error == NotFound
    ensures v.reply.Success? ==> v.reply.value == Reply(Ok, Page(name, escape(files[dir + [name]])))
  {
    if !IsSafeMarkdownName(name) then View([], Failure(BadRequest))
    else
      var path := Paths.Join(dir, name);
      Paths.PlainNameIsChild(dir, name);
      if path in files then View([path], Success(Reply(Ok, Page(name, escape(files[path])))))
      else View([path], Failure(NotFound))
  }

  /** The traversal attempt and the wrong extension are refused before any
      file is opened; an existing `real.md` is served, escaped. */
  lemma ViewExamples(dir: Paths.Path, files: map<Paths.Path, string>, escape: string -> string)
    requires dir + ["real.md"] in files
    ensures ViewArticle(dir, "../secret.md", files, escape) == View([], Failure(BadRequest))
    ensures ViewArticle(dir, "notes.txt", files, escape) == View([], Failure(BadRequest))
    ensures ViewArticle(dir, "real.md", files, escape).reply ==
            Success(Reply(Ok, Page("real.md", escape(files[dir + ["real.md"]]))))
  {
    GuardExamples();
  }

  /** The last `.` of `s`, if any. */
  function LastDot(s: string): (r: Option<nat>)
    ensures r.None? <==> '.' !in s
    ensures r.Some? ==> r.value < |s| && s[r.value] == '.' && forall j :: r.value < j < |s| ==> s[j] != '.'
    decreases |s|
  {
    if |s| == 0 then None
    else if s[|s| - 1] == '.' then Some(|s| - 1)
    else
      var r := LastDot(s[..|s| - 1]);
      assert forall j :: 0 <= j < |s| - 1 ==> s[..|s| - 1][j] == s[j];
      assert '.' in s ==> '.' in s[..|s| - 1] by {
        if '.' in s {
          var k :| 0 <= k < |s| && s[k] == '.';
          assert s[..|s| - 1][k] == '.';
        }
      }
      r
  }

  /** The extension of a file name as `Path::extension` reports it: the text
      after the last `.`, except that `..`, a name without a dot and a name
      whose only dot is its first character have none. */
  function Extension(name: string): (r: Option<string>)
    ensures r.None? <==> name == ".." || forall i :: 0 < i < |name| ==> name[i] != '.'
    ensures r.Some? ==> '.' !in r.value && EndsWith(name, "." + r.value) && |r.value| + 1 < |name|
  {
    if name == ".." then None
    else
      match LastDot(name)
      case None => None
      case Some(i) =>
        if i == 0 then None
        else
          var tail := name[i + 1..];
          assert name[i..] == "." + tail;
          assert forall j :: 0 <= j < |tail| ==> tail[j] == name[i + 1 + j];
          Some(tail)
  }

  /** A name with extension `md` ends with `.md`. */
  lemma {:induction false} MdExtensionEndsWithMd(name: string)
    requires Extension(name) == Some("md")
    ensures EndsWith(name, ".md")
  {
    var i := LastDot(name).value;
    assert name[i + 1..] == "md";
    assert name[|name| - 3..] == [name[i]] + name[i + 1..];
  }

  /** Conversely, every safe name but `.md` itself has extension `md`. */
  lemma {:induction false} SafeNameHasMdExtension(name: string)
    requires IsSafeMarkdownName(name)
    requires name != ".md"
    ensures Extension(name) == Some("md")
  {
    var n := |name|;
    assert name[n - 3..] == ".md";
    assert name[n - 3] == '.' && name[n - 2] == 'm' && name[n - 1] == 'd';
    var i := LastDot(name).value;
    assert i == n - 3;
    assert name[i + 1..] == "md";
  }

  /** The two checks disagree at the edges: `notes..md` is listed but refused,
      `.md` is served but not listed. */
  lemma {:induction false} ListingAndGuardDisagree()
    ensures Extension("notes..md") == Some("md") && !IsSafeMarkdownName("notes..md")
    ensures Extension(".md") == None && IsSafeMarkdownName(".md")
  {
    var a := "notes..md";
    assert a[5] == '.' && a[6] == '.';
    assert a[..8][..7][..6] == "notes.";
    assert LastDot(a) == Some(6);
    assert a[7..] == "md";
    var b := ".md";
    assert LastDot(b[..2]) == Some(0) by {
      assert b[..2][..1] == ".";
    }
    assert b[1..] == "md";
    assert b[..0] == "";
    assert !HasDotDot(b) by {
      forall i | 0 <= i < 2
        ensures !(b[i] == '.' && b[i + 1] == '.')
      {
      }
    }
  }

  /** The directory entries whose extension is `md`, in listing order. */
  function MarkdownNames(entries: seq<Option<string>>): (r: seq<string>)
    ensures forall x :: x in r <==> Some(x) in entries && Extension(x) == Some("md")
    decreases |entries|
  {
    if |entries| == 0 then []
    else
      var rest := MarkdownNames(entries[1..]);
      assert entries == [entries[0]] + entries[1..];
      match entries[0]
      case Some(name) => if Extension(name) == Some("md") then [name] + rest else rest
      case None => rest
  }

  /** `list_articles` before rendering: a failed directory read is a 500,
      otherwise the markdown names in ascending order. */
  function ListArticles(listing: Option<seq<Option<string>>>): (r: Result<seq<string>, StatusCode>)
    ensures listing.None? <==> r.Failure?
    ensures r.Failure? ==> r.error == InternalServerError
    ensures r.Success? ==> Lex.Sorted(r.value) && multiset(r.value) == multiset(MarkdownNames(listing.value))
  {
    match listing
    case None => Failure(InternalServerError)
    case Some(entries) => Success(Lex.Sort(MarkdownNames(entries)))
  }

  /** A name is listed exactly when the directory holds an entry of that name
      with extension `md`. */
  lemma {:induction false} ListedIffMarkdown(entries: seq<Option<string>>, x: string)
    ensures x in ListArticles(Some(entries)).value <==> Some(x) in entries && Extension(x) == Some("md")
  {
    var r := ListArticles(Some(entries)).value;
    assert x in r <==> x in multiset(r);
    assert x in MarkdownNames(entries) <==> x in multiset(MarkdownNames(entries));
  }
}
