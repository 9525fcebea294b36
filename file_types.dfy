/** Type derivation for uploaded files: the `type` of a record is
    `path.extname(originalName).toLowerCase()`. This module models Node's POSIX
    `path.extname` and an ASCII `toLowerCase`, and proves that the derived type does
    not depend on the letter case of the name. */
module FileTypes {

  /** The only type whose files are shown as text and may be edited. */
  const TextType: string := ".c"
  /** The only type the server previews as an image. */
  const ImageType: string := ".jpg"

  /** The path with any run of trailing separators removed. */
  function StripTrailingSlashes(p: string): (r: string)
    ensures r <= p
    ensures r == [] || r[|r| - 1] != '/'
    ensures forall i :: |r| <= i < |p| ==> p[i] == '/'
  {
    if |p| > 0 && p[|p| - 1] == '/' then StripTrailingSlashes(p[..|p| - 1]) else p
  }

  /** The last path component: everything after the last separator. */
  function BaseName(p: string): (b: string)
    ensures forall i :: 0 <= i < |b| ==> b[i] != '/'
  {
    if p == [] || p[|p| - 1] == '/' then [] else BaseName(p[..|p| - 1]) + [p[|p| - 1]]
  }

  /** The last component is the suffix of the path after its last separator. */
  lemma {:induction false} BaseNameIsLastComponent(p: string)
    ensures var b := BaseName(p);
            && |b| <= |p| && b == p[|p| - |b|..]
            && (|b| < |p| ==> p[|p| - |b| - 1] == '/')
  {
    if p != [] && p[|p| - 1] != '/' {
      var init := p[..|p| - 1];
      BaseNameIsLastComponent(init);
      assert BaseName(p) == BaseName(init) + [p[|p| - 1]];
      assert p == init + [p[|p| - 1]];
    }
  }

  /** The index of the last '.', or -1 when there is none. */
  function LastDot(s: string): (d: int)
    ensures -1 <= d < |s|
    ensures d >= 0 ==> s[d] == '.'
    ensures forall j :: d < j < |s| ==> s[j] != '.'
  {
    if s == [] then -1 else if s[|s| - 1] == '.' then |s| - 1 else LastDot(s[..|s| - 1])
  }

  /** Node's `path.extname`: the last component's suffix from its last '.', or ""
      when that component has no '.', starts with its only '.', or is "..". */
  function ExtName(p: string): (e: string)
    ensures e == [] || (e[0] == '.' && forall i :: 1 <= i < |e| ==> e[i] != '.' && e[i] != '/')
  {
    Extension(BaseName(StripTrailingSlashes(p)))
  }

  /** The extension of one path component. */
  function Extension(b: string): (e: string)
    requires forall i :: 0 <= i < |b| ==> b[i] != '/'
    ensures e == [] || (e[0] == '.' && forall i :: 1 <= i < |e| ==> e[i] != '.' && e[i] != '/')
  {
    var d := LastDot(b);
    if d <= 0 || b == ".." then "" else b[d..]
  }

  function LowerChar(c: char): char {
    if 'A' <= c <= 'Z' then (c as int + 32) as char else c
  }

  /** `toLowerCase` on the ASCII letters; every other character is kept. */
  function LowerAscii(s: string): (r: string)
    ensures |r| == |s|
    ensures forall i :: 0 <= i < |r| ==> !('A' <= r[i] <= 'Z')
    ensures forall i :: 0 <= i < |s| && !('A' <= s[i] <= 'Z') ==> r[i] == s[i]
    ensures forall i :: 0 <= i < |s| && 'A' <= s[i] <= 'Z' ==> r[i] as int == s[i] as int + ('a' as int - 'A' as int)
  {
    seq(|s|, i requires 0 <= i < |s| => LowerChar(s[i]))
  }

  /** The `type` stored in a new file record. */
  function FileType(originalName: string): (t: string)
    ensures t == [] || (t[0] == '.' && forall i :: 1 <= i < |t| ==> t[i] != '.' && t[i] != '/')
    ensures forall i :: 0 <= i < |t| ==> !('A' <= t[i] <= 'Z')
  {
    LowerAscii(ExtName(originalName))
  }

  lemma LowerAsciiIdempotent(s: string)
    ensures LowerAscii(LowerAscii(s)) == LowerAscii(s)
  {
  }

  lemma LowerAsciiSlice(s: string, i: nat, j: nat)
    requires i <= j <= |s|
    ensures LowerAscii(s)[i..j] == LowerAscii(s[i..j])
  {
  }

  lemma {:induction false} StripCommutesWithLower(p: string)
    ensures StripTrailingSlashes(LowerAscii(p)) == LowerAscii(StripTrailingSlashes(p))
  {
    if |p| > 0 && p[|p| - 1] == '/' {
      LowerAsciiSlice(p, 0, |p| - 1);
      StripCommutesWithLower(p[..|p| - 1]);
    }
  }

  lemma {:induction false} BaseNameCommutesWithLower(p: string)
    ensures BaseName(LowerAscii(p)) == LowerAscii(BaseName(p))
  {
    var lp := LowerAscii(p);
    if p != [] && p[|p| - 1] != '/' {
      var init, last := p[..|p| - 1], p[|p| - 1];
      assert lp[..|lp| - 1] == LowerAscii(init) by {
        LowerAsciiSlice(p, 0, |p| - 1);
      }
      assert lp[|lp| - 1] == LowerChar(last) != '/';
      BaseNameCommutesWithLower(init);
      LowerAsciiConcat(BaseName(init), [last]);
    } else if p != [] {
      assert lp[|p| - 1] == '/';
    }
  }

  lemma LowerAsciiConcat(a: string, b: string)
    ensures LowerAscii(a + b) == LowerAscii(a) + LowerAscii(b)
  {
  }

  lemma {:induction false} LastDotCommutesWithLower(s: string)
    ensures LastDot(LowerAscii(s)) == LastDot(s)
  {
    if s != [] && s[|s| - 1] != '.' {
      LowerAsciiSlice(s, 0, |s| - 1);
      LastDotCommutesWithLower(s[..|s| - 1]);
    }
  }

  /** Lower-casing a name before or after taking its extension gives the same result. */
  lemma ExtNameCommutesWithLower(p: string)
    ensures ExtName(LowerAscii(p)) == LowerAscii(ExtName(p))
  {
    StripCommutesWithLower(p);
    BaseNameCommutesWithLower(StripTrailingSlashes(p));
    ExtensionCommutesWithLower(BaseName(StripTrailingSlashes(p)));
  }

  lemma ExtensionCommutesWithLower(b: string)
    requires forall i :: 0 <= i < |b| ==> b[i] != '/'
    ensures forall i :: 0 <= i < |LowerAscii(b)| ==> LowerAscii(b)[i] != '/'
    ensures Extension(LowerAscii(b)) == LowerAscii(Extension(b))
  {
    var d := LastDot(b);
    LastDotCommutesWithLower(b);
    DotDotIgnoresCase(b);
    if 0 < d && b != ".." {
      LowerAsciiSlice(b, d, |b|);
    }
  }

  lemma DotDotIgnoresCase(b: string)
    ensures LowerAscii(b) == ".." <==> b == ".."
  {
    var lb := LowerAscii(b);
    if lb == ".." {
      assert |b| == 2 && lb[0] == '.' && lb[1] == '.';
      assert lb[0] == LowerChar(b[0]) && lb[1] == LowerChar(b[1]);
    }
  }

  /** Two names that differ only in the case of ASCII letters (`FOO.C`, `foo.c`)
      get the same type. */
  lemma FileTypeIgnoresCase(a: string, b: string)
    requires LowerAscii(a) == LowerAscii(b)
    ensures FileType(a) == FileType(b)
  {
    ExtNameCommutesWithLower(a);
    ExtNameCommutesWithLower(b);
    LowerAsciiIdempotent(ExtName(a));
    LowerAsciiIdempotent(ExtName(b));
  }

  /** A plain file name `stem.ext` whose extension has no '.' has the type
      "." + ext, lower-cased. */
  lemma FileTypeOfDottedName(stem: string, ext: string)
    requires stem != [] && stem != "."
    requires forall i :: 0 <= i < |stem| ==> stem[i] != '/'
    requires forall i :: 0 <= i < |ext| ==> ext[i] != '/' && ext[i] != '.'
    ensures FileType(stem + "." + ext) == LowerAscii("." + ext)
  {
    var name := stem + "." + ext;
    DottedNameHasNoSlash(stem, ext);
    StripPlain(name);
    BaseNameOfPlain(name);
    ExtensionOfDottedName(stem, ext);
  }

  lemma DottedNameHasNoSlash(stem: string, ext: string)
    requires forall i :: 0 <= i < |stem| ==> stem[i] != '/'
    requires forall i :: 0 <= i < |ext| ==> ext[i] != '/'
    ensures var name := stem + "." + ext; forall i :: 0 <= i < |name| ==> name[i] != '/'
  {
    var name := stem + "." + ext;
    forall i | 0 <= i < |name|
      ensures name[i] != '/'
    {
      if i < |stem| {
        assert name[i] == stem[i];
      } else if i > |stem| {
        assert name[i] == ext[i - |stem| - 1];
      }
    }
  }

  /** A non-empty name without separators has no trailing separators to strip. */
  lemma StripPlain(p: string)
    requires p != [] && forall i :: 0 <= i < |p| ==> p[i] != '/'
    ensures StripTrailingSlashes(p) == p
  {
    assert p[|p| - 1] != '/';
  }

  /** A name whose only '.' is its first character, such as `.c` or `.bashrc`,
      has no extension and so the empty type. */
  lemma DotfileHasNoType(ext: string)
    requires forall i :: 0 <= i < |ext| ==> ext[i] != '/' && ext[i] != '.'
    ensures FileType("." + ext) == ""
  {
    var name := "." + ext;
    assert [] + "." + ext == name;
    DottedNameHasNoSlash([], ext);
    StripPlain(name);
    BaseNameOfPlain(name);
    LastDotOfSuffix([], ext);
  }

  /** The name ".." has no extension either. */
  lemma DotDotHasNoType()
    ensures FileType("..") == ""
  {
    assert forall i :: 0 <= i < |".."| ==> ".."[i] != '/';
    StripPlain("..");
    BaseNameOfPlain("..");
  }

  /** The extension of `stem.ext` is `.ext` when the stem is not "." and `ext`
      has no '.'. */
  lemma ExtensionOfDottedName(stem: string, ext: string)
    requires stem != [] && stem != "."
    requires var name := stem + "." + ext; forall i :: 0 <= i < |name| ==> name[i] != '/'
    requires forall i :: 0 <= i < |ext| ==> ext[i] != '.'
    ensures Extension(stem + "." + ext) == "." + ext
  {
    var name := stem + "." + ext;
    LastDotOfSuffix(stem, ext);
    assert |stem| == 1 ==> stem == [stem[0]];
    assert name[0] == stem[0];
    assert name != "..";
    assert name[|stem|..] == "." + ext;
  }

  lemma {:induction false} BaseNameOfPlain(p: string)
    requires forall i :: 0 <= i < |p| ==> p[i] != '/'
    ensures BaseName(p) == p
  {
    if p != [] {
      BaseNameOfPlain(p[..|p| - 1]);
    }
  }

  lemma {:induction false} LastDotOfSuffix(stem: string, ext: string)
    requires forall i :: 0 <= i < |ext| ==> ext[i] != '.'
    ensures LastDot(stem + "." + ext) == |stem|
  {
    if ext != [] {
      var shorter := ext[..|ext| - 1];
      assert (stem + "." + ext)[..|stem + "." + ext| - 1] == stem + "." + shorter;
      LastDotOfSuffix(stem, shorter);
    } else {
      assert (stem + "." + ext)[|stem|] == '.';
    }
  }

  /** Names with no '.' in them have the empty type. */
  lemma FileTypeWithoutDot(name: string)
    requires forall i :: 0 <= i < |name| ==> name[i] != '.'
    ensures FileType(name) == ""
  {
    var s := StripTrailingSlashes(name);
    var b := BaseName(s);
    BaseNameIsLastComponent(s);
    assert forall i :: 0 <= i < |b| ==> b[i] == name[|s| - |b| + i];
  }

  /** The server types `<stem>.C` as a text file, since it lower-cases the type. */
  lemma UpperCaseCIsText(stem: string)
    requires stem != [] && stem != "."
    requires forall i :: 0 <= i < |stem| ==> stem[i] != '/'
    ensures FileType(stem + "." + "C") == TextType
  {
    var ext := "C";
    assert forall i :: 0 <= i < |ext| ==> ext[i] != '/' && ext[i] != '.' by {
      assert |ext| == 1 && ext[0] == 'C';
    }
    FileTypeOfDottedName(stem, ext);
    LowerDotC();
  }

  lemma LowerDotC()
    ensures LowerAscii("." + "C") == TextType
  {
    var lower := LowerAscii("." + "C");
    assert |lower| == 2 && lower[0] == '.' && lower[1] == 'c';
  }

  /** The server types `<stem>.JPG` as an image, since it lower-cases the type. */
  lemma UpperCaseJpgIsImage(stem: string)
    requires stem != [] && stem != "."
    requires forall i :: 0 <= i < |stem| ==> stem[i] != '/'
    ensures FileType(stem + "." + "JPG") == ImageType
  {
    var ext := "JPG";
    assert forall i :: 0 <= i < |ext| ==> ext[i] != '/' && ext[i] != '.' by {
      assert |ext| == 3 && ext[0] == 'J' && ext[1] == 'P' && ext[2] == 'G';
    }
    FileTypeOfDottedName(stem, ext);
    LowerDotJpg();
  }

  lemma LowerDotJpg()
    ensures LowerAscii("." + "JPG") == ImageType
  {
    var lower := LowerAscii("." + "JPG");
    assert |lower| == 4 && lower[0] == '.' && lower[1] == 'j' && lower[2] == 'p' && lower[3] == 'g';
  }
}
