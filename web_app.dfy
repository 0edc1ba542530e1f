/** The web front end's upload gate and hash routing: which uploads are
    accepted by extension, and whether a saved upload is hashed as an image
    or as a video. */
module WebApp {
  import opened Text
  import opened Numerals

  /** `ALLOWED_EXTENSIONS`. */
  const AllowedExtensions: set<string> := {"mp4", "avi", "mov", "mkv", "webm", "flv", "wmv", "png", "jpg", "jpeg", "gif", "bmp"}

  /** The extensions `analyze_video` hashes as images. */
  const ImageExtensions: set<string> := {"png", "jpg", "jpeg", "gif", "bmp"}

  /** `allowed_file`: the name has a '.', and the text after the last '.',
      lower-cased, is an allowed extension. */
  predicate AllowedFile(filename: string)
  {
    '.' in filename && Lower(AfterLast(filename, '.')) in AllowedExtensions
  }

  /** `str(path).lower().split('.')[-1]`: the lower-cased text after the
      last '.', or the whole lower-cased path when it has none. */
  function FileExtension(path: string): (ext: string)
    ensures '.' !in ext
  {
    AfterLast(Lower(path), '.')
  }

  /** Whether `analyze_video` computes an image hash (otherwise a video
      hash). */
  predicate HashesAsImage(path: string)
  {
    FileExtension(path) in ImageExtensions
  }

  /** Lower-casing leaves '.' where it was, so it commutes with taking the
      text after the last '.'. */
  lemma {:induction false} LowerAfterLast(s: string)
    ensures Lower(AfterLast(s, '.')) == AfterLast(Lower(s), '.')
    ensures '.' in s <==> '.' in Lower(s)
  {
    if |s| > 0 {
      var l := Lower(s);
      LowerAfterLast(s[1..]);
      assert l[1..] == Lower(s[1..]);
      assert l[0] == '.' <==> s[0] == '.';
      assert '.' in s <==> s[0] == '.' || '.' in s[1..];
      assert '.' in l <==> l[0] == '.' || '.' in l[1..];
      if '.' in s[1..] {
        assert AfterLast(l, '.') == AfterLast(l[1..], '.');
      } else if s[0] == '.' {
        assert AfterLast(l, '.') == l[1..];
      } else {
        assert AfterLast(l, '.') == l;
      }
    }
  }

  /** What `allowed_file` accepts: a name ending in '.' followed by one of the
      twelve extensions in any case; a name without '.' or ending in '.'
      is refused. */
  lemma AllowedFileSpec(filename: string)
    ensures AllowedFile(filename) ==>
      exists ext :: ext in AllowedExtensions && |filename| > |ext| &&
        filename[|filename| - |ext| - 1] == '.' && Lower(filename[|filename| - |ext|..]) == ext
    ensures '.' !in filename ==> !AllowedFile(filename)
    ensures |filename| > 0 && filename[|filename| - 1] == '.' ==> !AllowedFile(filename)
  {
    var tail := AfterLast(filename, '.');
    if AllowedFile(filename) {
      var ext := Lower(tail);
      assert filename[|filename| - |ext|..] == tail;
    }
    if |filename| > 0 && filename[|filename| - 1] == '.' {
      assert tail == "";
      assert Lower(tail) == "";
    }
  }

  /** Where `analyze_video` saves an upload and which path it routes on:
      `UPLOAD_FOLDER / f"{int(time.time())}_{secure_filename(name)}"`. The
      folder, the clock reading and the sanitised name are parameters. */
  function SavedPath(folder: string, stamp: nat, safeName: string): (p: string)
    ensures |p| > |safeName| && p[|p| - |safeName| - 1] == '_' && p[|p| - |safeName|..] == safeName
  {
    folder + "/" + ToDecimal(stamp) + "_" + safeName
  }

  /** Lower-casing a concatenation lower-cases each part. */
  lemma LowerAppend(a: string, b: string)
    ensures Lower(a + b) == Lower(a) + Lower(b)
  {
    assert forall i :: 0 <= i < |a + b| ==> Lower(a + b)[i] == (Lower(a) + Lower(b))[i];
  }

  /** A separator in the second part hides the first part. */
  lemma {:induction false} AfterLastOfAppend(p: string, s: string, c: char)
    requires c in s
    ensures AfterLast(p + s, c) == AfterLast(s, c)
  {
    if |p| > 0 {
      assert (p + s)[1..] == p[1..] + s;
      assert c in (p + s)[1..];
      AfterLastOfAppend(p[1..], s, c);
    } else {
      assert p + s == s;
    }
  }

  /** Without a separator in the second part, the text after the last
      separator still ends with the whole second part. */
  lemma AfterLastKeepsTail(p: string, q: string, c: char)
    requires c !in q
    ensures var r := AfterLast(p + q, c);
      |r| >= |q| && r[|r| - |q|..] == q
  {
    var s := p + q;
    var r := AfterLast(s, c);
    assert r == s[|s| - |r|..];
    assert s[|s| - |q|..] == q;
  }

  /** No image extension holds a '_'. */
  lemma UnderscoreNotImage(e: string)
    requires '_' in e
    ensures e !in ImageExtensions
  {
  }

  /** A saved name with a '.' is routed on the lower-cased text after its
      last '.'. */
  lemma SavedExtension(folder: string, stamp: nat, safeName: string)
    requires '.' in safeName
    ensures FileExtension(SavedPath(folder, stamp, safeName)) == Lower(AfterLast(safeName, '.'))
  {
    var pre := folder + "/" + ToDecimal(stamp) + "_";
    assert SavedPath(folder, stamp, safeName) == pre + safeName;
    LowerAppend(pre, safeName);
    LowerAfterLast(safeName);
    AfterLastOfAppend(Lower(pre), Lower(safeName), '.');
  }

  /** A name without '.' keeps the '_' in front of it in the text after
      the last '.' of the lower-cased whole. */
  lemma UnderscoreSurvives(pre: string, name: string)
    requires '.' !in name
    ensures '_' in AfterLast(Lower(pre + ("_" + name)), '.')
  {
    var q := "_" + name;
    LowerAppend(pre, q);
    var lq := Lower(q);
    assert lq[0] == '_';
    assert forall i :: 0 <= i < |lq| ==> lq[i] != '.' by {
      forall i | 0 <= i < |lq| ensures lq[i] != '.' {
        assert q[i] != '.';
      }
    }
    AfterLastKeepsTail(Lower(pre), lq, '.');
    var r := AfterLast(Lower(pre) + lq, '.');
    assert r[|r| - |lq|] == lq[0];
  }

  /** A saved name without '.' leaves the '_' before it in the routing
      extension. */
  lemma SavedExtensionNoDot(folder: string, stamp: nat, safeName: string)
    requires '.' !in safeName
    ensures '_' in FileExtension(SavedPath(folder, stamp, safeName))
  {
    var pre := folder + "/" + ToDecimal(stamp);
    assert SavedPath(folder, stamp, safeName) == pre + ("_" + safeName);
    UnderscoreSurvives(pre, safeName);
  }

  /** The routing of a saved upload reads the extension of the sanitised
      name: when that name has a '.', an image extension after its last '.'
      (in any case) means image hashing; when it has none, the text after
      the path's last '.' holds the '_' that precedes the name, so the
      upload is hashed as a video. */
  lemma RoutingOfSavedUploads(folder: string, stamp: nat, safeName: string)
    ensures '.' in safeName ==>
      (HashesAsImage(SavedPath(folder, stamp, safeName)) <==> Lower(AfterLast(safeName, '.')) in ImageExtensions)
    ensures '.' !in safeName ==> !HashesAsImage(SavedPath(folder, stamp, safeName))
  {
    if '.' in safeName {
      SavedExtension(folder, stamp, safeName);
    } else {
      SavedExtensionNoDot(folder, stamp, safeName);
      UnderscoreNotImage(FileExtension(SavedPath(folder, stamp, safeName)));
    }
  }

  /** An accepted upload whose sanitised name is the name the gate checked
      is routed on the extension the gate accepted: images go to image
      hashing, the other seven extensions to video hashing. */
  lemma RoutingOfAcceptedUploads(filename: string, folder: string, stamp: nat)
    requires AllowedFile(filename)
    ensures HashesAsImage(SavedPath(folder, stamp, filename)) <==> Lower(AfterLast(filename, '.')) in ImageExtensions
    ensures !HashesAsImage(SavedPath(folder, stamp, filename)) ==>
      Lower(AfterLast(filename, '.')) in {"mp4", "avi", "mov", "mkv", "webm", "flv", "wmv"}
  {
    var e := Lower(AfterLast(filename, '.'));
    assert '.' in filename && e in AllowedExtensions;
    RoutingOfSavedUploads(folder, stamp, filename);
    if e !in ImageExtensions {
      VideoExtensionsRest(e);
    }
  }

  /** The allowed extensions that are not image extensions are the seven
      video extensions. */
  lemma VideoExtensionsRest(e: string)
    requires e in AllowedExtensions && e !in ImageExtensions
    ensures e in {"mp4", "avi", "mov", "mkv", "webm", "flv", "wmv"}
  {
  }

  /** `secure_filename` strips a leading '.', so the accepted name ".png"
      is saved without any '.' in its last component and is hashed as a
      video. */
  lemma DotNameRoutedAsVideo(folder: string, stamp: nat)
    ensures AllowedFile(".png")
    ensures !HashesAsImage(SavedPath(folder, stamp, "png"))
  {
    assert AfterLast(".png", '.') == "png";
    assert Lower("png") == "png";
    RoutingOfSavedUploads(folder, stamp, "png");
  }

  /** The text after the last '.' of `p + "." + ext` is `ext` when `ext`
      holds no '.'. */
  lemma {:induction false} AfterLastOfSuffix(p: string, ext: string)
    requires '.' !in ext
    ensures AfterLast(p + "." + ext, '.') == ext
  {
    var s := p + "." + ext;
    if |p| == 0 {
      assert s[0] == '.' && s[1..] == ext;
    } else {
      assert s[1..] == p[1..] + "." + ext;
      assert s[1..][|p| - 1] == '.';
      AfterLastOfSuffix(p[1..], ext);
    }
  }

  /** The converse of `AllowedFileSpec`: any name followed by '.' and an
      extension without '.' is accepted exactly when the lower-cased
      extension is one of the twelve. */
  lemma AllowedFileAccepts(name: string, ext: string)
    requires '.' !in ext
    ensures AllowedFile(name + "." + ext) <==> Lower(ext) in AllowedExtensions
  {
    AfterLastOfSuffix(name, ext);
    assert (name + "." + ext)[|name|] == '.';
  }
}
