/** The front-matter validator script: every `.md` file of the posts
    directory is read and parsed; one with a title, date and excerpt counts
    as valid, one without them or one that cannot be read or parsed counts
    as an error; the exit code is 1 when there was any error.

    The directory listing is `names`; `files` maps a name to its parsed
    document and has no entry for a file that cannot be read or parsed. */
module ValidatePosts {
  import opened Js
  import Posts

  /** The required front matter: a truthy title, date and excerpt. */
  predicate HasRequired(data: Posts.FrontMatter) {
    Truthy(data.title) && Truthy(data.date) && Truthy(data.excerpt)
  }

  predicate Passes(files: map<string, Posts.Document>, f: string) {
    f in files && HasRequired(files[f].data)
  }

  /** The number of passing files among `fs`. */
  function CountPassing(fs: seq<string>, files: map<string, Posts.Document>): (n: nat)
    ensures n <= |fs|
  {
    if fs == [] then 0
    else CountPassing(fs[..|fs| - 1], files) + (if Passes(files, fs[|fs| - 1]) then 1 else 0)
  }

  /** Every file passes exactly when the count of passing files is the
      number of files. */
  lemma {:induction false} CountPassingAll(fs: seq<string>, files: map<string, Posts.Document>)
    ensures CountPassing(fs, files) == |fs| <==> forall i :: 0 <= i < |fs| ==> Passes(files, fs[i])
    decreases |fs|
  {
    if fs != [] {
      var init := fs[..|fs| - 1];
      CountPassingAll(init, files);
      assert forall i :: 0 <= i < |init| ==> init[i] == fs[i];
    }
  }

  /** Every `.md` file of the listing passes exactly when the count of
      passing files is the number of `.md` files. */
  lemma AllPass(names: seq<string>, files: map<string, Posts.Document>)
    ensures var md := Posts.MarkdownFiles(names);
      CountPassing(md, files) == |md| <==> forall f :: f in names && EndsWith(f, ".md") ==> Passes(files, f)
  {
    var md := Posts.MarkdownFiles(names);
    CountPassingAll(md, files);
    assert (forall f :: f in md ==> Passes(files, f)) <==> (forall k :: 0 <= k < |md| ==> Passes(files, md[k]));
  }

  /** The `forEach` over the `.md` files: each file adds one to exactly
      one of the two counters. */
  method Tally(md: seq<string>, files: map<string, Posts.Document>) returns (success: nat, errors: nat)
    ensures success == CountPassing(md, files)
    ensures success + errors == |md|
  {
    errors := 0;
    success := 0;
    var i := 0;
    while i < |md|
      invariant 0 <= i <= |md|
      invariant success == CountPassing(md[..i], files)
      invariant success + errors == i
    {
      var file := md[i];
      if file in files {
        var data := files[file].data;
        if !Truthy(data.title) || !Truthy(data.date) || !Truthy(data.excerpt) {
          errors := errors + 1;
        } else {
          success := success + 1;
        }
      } else {
        errors := errors + 1;
      }
      assert CountPassing(md[..i + 1], files) == CountPassing(md[..i], files) + (if Passes(files, file) then 1 else 0) by {
        assert md[..i + 1][..i] == md[..i];
      }
      i := i + 1;
    }
    assert md[..i] == md;
  }

  /** The script: the counters after the loop and the exit code, which is
      0 exactly when every `.md` file of the listing passes. */
  method Validate(names: seq<string>, files: map<string, Posts.Document>)
    returns (success: nat, errors: nat, exitCode: int)
    ensures success == CountPassing(Posts.MarkdownFiles(names), files)
    ensures success + errors == |Posts.MarkdownFiles(names)|
    ensures exitCode == (if errors > 0 then 1 else 0)
    ensures exitCode == 0 <==> forall f :: f in names && EndsWith(f, ".md") ==> Passes(files, f)
  {
    var md := Posts.MarkdownFiles(names);
    success, errors := Tally(md, files);
    exitCode := if errors > 0 then 1 else 0;
    AllPass(names, files);
  }
}
