/** The upload extension filter of the routes module and the choice of a new post's attachment. */
module Uploads {

  /** The allow-list; membership is exact string equality, so letter case matters. */
  const AllowedExtensions: set<string> := {"png", "jpg", "jpeg", "gif", "JPG"}

  /** The sentinel image a post gets when no acceptable file came with it. */
  const DefaultFilename: string := "default.png"

  /** Python's `s.rsplit(sep, 1)`: the whole string when `sep` does not occur,
      otherwise the text before and the text after the LAST `sep`. */
  function RSplitOnce(s: string, sep: char): (parts: seq<string>)
    ensures 1 <= |parts| <= 2
    ensures |parts| == 1 <==> sep !in s
    ensures |parts| == 1 ==> parts[0] == s
    ensures |parts| == 2 ==> parts[0] + [sep] + parts[1] == s && sep !in parts[1]
  {
    if |s| == 0 then [s]
    else if s[|s| - 1] == sep then [s[..|s| - 1], []]
    else
      var rest := RSplitOnce(s[..|s| - 1], sep);
      if |rest| == 1 then [s] else [rest[0], rest[1] + [s[|s| - 1]]]
  }

  /** The two halves of a split are determined: whatever precedes the last
      separator, the text after it is exactly the separator-free suffix. */
  lemma RSplitOnceLast(pre: string, sep: char, suffix: string)
    requires sep !in suffix
    ensures RSplitOnce(pre + [sep] + suffix, sep) == [pre, suffix]
  {
    var s := pre + [sep] + suffix;
    assert s[|pre|] == sep;
    var parts := RSplitOnce(s, sep);
    assert |parts| == 2;
    var p0, p1 := parts[0], parts[1];
    assert s[|p0|] == sep by { assert s == p0 + [sep] + p1; }
    if |p0| < |pre| {
      assert false;
    } else if |p0| > |pre| {
      assert false;
    }
    assert p0 == s[..|pre|] == pre;
    assert p1 == s[|pre| + 1..] == suffix;
  }

  /** `allowed_file`: a dot must occur, and the text after the last dot must be
      on the allow-list. */
  predicate AllowedFile(filename: string): (ok: bool)
    ensures ok ==> var k := |RSplitOnce(filename, '.')[0]|;
                   k < |filename| && filename[k] == '.' &&
                   '.' !in filename[k + 1..] && filename[k + 1..] in AllowedExtensions
  {
    '.' in filename && RSplitOnce(filename, '.')[1] in AllowedExtensions
  }

  /** A name without a dot is never accepted. */
  lemma NoDotRejected(filename: string)
    requires '.' !in filename
    ensures !AllowedFile(filename)
  {
  }

  /** Only the text after the last dot decides, and it must match exactly. */
  lemma AllowedFileByExtension(stem: string, ext: string)
    requires '.' !in ext
    ensures AllowedFile(stem + "." + ext) <==> ext in AllowedExtensions
  {
    RSplitOnceLast(stem, '.', ext);
  }

  /** Several dots: only the last extension counts, so `a.tar.png` is accepted
      and `a.png.exe` is not. */
  lemma SeveralDotsExamples(stem: string)
    ensures AllowedFile(stem + ".tar.png") && !AllowedFile(stem + ".png.exe")
  {
    assert AllowedFile(stem + ".tar.png") by {
      assert stem + ".tar" + "." + "png" == stem + ".tar.png";
      AllowedFileByExtension(stem + ".tar", "png");
    }
    assert !AllowedFile(stem + ".png.exe") by {
      assert stem + ".png" + "." + "exe" == stem + ".png.exe";
      AllowedFileByExtension(stem + ".png", "exe");
    }
  }

  /** Letter case: `JPG` is listed as a literal of its own, and no other
      upper-case or mixed-case spelling is. */
  lemma LetterCaseExamples(stem: string)
    ensures AllowedFile(stem + ".JPG")
    ensures !AllowedFile(stem + ".PNG") && !AllowedFile(stem + ".Jpg")
  {
    assert AllowedFile(stem + ".JPG") by {
      assert stem + "." + "JPG" == stem + ".JPG";
      AllowedFileByExtension(stem, "JPG");
    }
    assert !AllowedFile(stem + ".PNG") by {
      assert stem + "." + "PNG" == stem + ".PNG";
      AllowedFileByExtension(stem, "PNG");
    }
    assert !AllowedFile(stem + ".Jpg") by {
      assert stem + "." + "Jpg" == stem + ".Jpg";
      AllowedFileByExtension(stem, "Jpg");
    }
  }

  /** Each lower-case image extension is accepted. */
  lemma ImageNamesAccepted(stem: string)
    ensures AllowedFile(stem + ".png") && AllowedFile(stem + ".jpg")
    ensures AllowedFile(stem + ".jpeg") && AllowedFile(stem + ".gif")
  {
    assert AllowedFile(stem + ".jpg") by {
      assert stem + "." + "jpg" == stem + ".jpg";
      AllowedFileByExtension(stem, "jpg");
    }
    assert AllowedFile(stem + ".png") by {
      assert stem + "." + "png" == stem + ".png";
      AllowedFileByExtension(stem, "png");
    }
    assert AllowedFile(stem + ".jpeg") by {
      assert stem + "." + "jpeg" == stem + ".jpeg";
      AllowedFileByExtension(stem, "jpeg");
    }
    assert AllowedFile(stem + ".gif") by {
      assert stem + "." + "gif" == stem + ".gif";
      AllowedFileByExtension(stem, "gif");
    }
  }

  /** A trailing dot leaves an empty extension, which is not listed, and an
      executable's extension is not listed either. */
  lemma UnlistedNamesRejected(stem: string)
    ensures !AllowedFile(stem + ".") && !AllowedFile(stem + ".exe")
  {
    assert !AllowedFile(stem + ".") by {
      assert stem + "." + "" == stem + ".";
      AllowedFileByExtension(stem, "");
    }
    assert !AllowedFile(stem + ".exe") by {
      assert stem + "." + "exe" == stem + ".exe";
      AllowedFileByExtension(stem, "exe");
    }
  }

  /** What a new post records about its upload. */
  datatype Attachment = Attachment(filename: string, isPost: bool)

  /** The branch on `file and allowed_file(file.filename)`. An upload is known
      by the name the client sent; an empty name is a falsy file part. The
      sanitising `secure_filename` is a parameter. */
  function ChooseAttachment(upload: string, secure: string -> string): (a: Attachment)
    ensures a.isPost <==> AllowedFile(upload)
    ensures a.isPost ==> a.filename == secure(upload)
    ensures !a.isPost ==> a.filename == DefaultFilename
  {
    if upload != "" && AllowedFile(upload) then Attachment(secure(upload), true)
    else Attachment(DefaultFilename, false)
  }

  /** An upload whose last extension is allowed is kept under its sanitised
      name; any other upload, or none, gives the sentinel and `is_post = false`. */
  lemma AttachmentByExtension(stem: string, ext: string, secure: string -> string)
    requires '.' !in ext
    ensures var a := ChooseAttachment(stem + "." + ext, secure);
            (a.isPost <==> ext in AllowedExtensions) &&
            (a.isPost ==> a.filename == secure(stem + "." + ext)) &&
            (!a.isPost ==> a.filename == DefaultFilename)
  {
    AllowedFileByExtension(stem, ext);
  }
}
