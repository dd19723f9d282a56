/** The part of Python's `PurePosixPath` that builds a song's file name:
    parsing a string into an anchor and parts, joining with `/`, and
    rendering with `str`. */
module PosixPath {
  import opened Basics

  /** A parsed path: its anchor ("", "/" or "//") and its parts, with empty
      and "." parts already dropped. */
  datatype Path = Path(root: string, parts: seq<string>)

  /** `s.split("/")` */
  function Split(s: string): (r: seq<string>)
    ensures |r| >= 1
    ensures '/' !in s ==> r == [s]
    ensures NoSlash(r)
  {
    if |s| == 0 then [""]
    else
      var rest := Split(s[1..]);
      assert '/' !in s ==> '/' !in s[1..] && [s[0]] + s[1..] == s;
      if s[0] == '/' then [""] + rest
      else [[s[0]] + rest[0]] + rest[1..]
  }

  /** No piece contains a slash. */
  predicate NoSlash(parts: seq<string>) {
    forall i :: 0 <= i < |parts| ==> '/' !in parts[i]
  }

  /** `"/".join(parts)`: splitting the result gives slash-free pieces back. */
  function Join(parts: seq<string>): (r: string)
    ensures |parts| > 0 && NoSlash(parts) ==> Split(r) == parts
  {
    if |parts| == 0 then ""
    else if |parts| == 1 then parts[0]
    else
      var rest := Join(parts[1..]);
      assert '/' !in parts[0] ==> Split(parts[0] + "/" + rest) == [parts[0]] + Split(rest) by {
        if '/' !in parts[0] {
          SplitAfterPiece(parts[0], rest);
        }
      }
      assert NoSlash(parts) ==> NoSlash(parts[1..]) by {
        if NoSlash(parts) {
          forall i | 0 <= i < |parts[1..]| ensures '/' !in parts[1..][i] {
            assert parts[1..][i] == parts[i + 1];
          }
        }
      }
      assert parts == [parts[0]] + parts[1..];
      parts[0] + "/" + rest
  }

  /** Splitting a slash-free piece followed by "/" yields that piece first. */
  lemma {:induction false} SplitAfterPiece(a: string, rest: string)
    requires '/' !in a
    ensures Split(a + "/" + rest) == [a] + Split(rest)
    decreases |a|
  {
    var s := a + "/" + rest;
    if |a| == 0 {
      assert s == "/" + rest && s[1..] == rest;
    } else {
      assert s[0] == a[0] && s[1..] == a[1..] + "/" + rest;
      assert '/' !in a[1..] by {
        forall k | 0 <= k < |a[1..]| ensures a[1..][k] != '/' {
          assert a[1..][k] == a[k + 1];
        }
      }
      SplitAfterPiece(a[1..], rest);
      assert [a[0]] + a[1..] == a;
    }
  }

  /** Joining the pieces of a split string gives the string back. */
  lemma {:induction false} JoinSplit(s: string)
    ensures Join(Split(s)) == s
  {
    if |s| > 0 {
      var rest := Split(s[1..]);
      JoinSplit(s[1..]);
      if s[0] == '/' {
        assert ([""] + rest)[1..] == rest;
      } else {
        var r := [[s[0]] + rest[0]] + rest[1..];
        if |rest| > 1 {
          assert r[1..] == rest[1..];
          assert Join(rest) == rest[0] + "/" + Join(rest[1..]);
        }
      }
      assert s == [s[0]] + s[1..];
    }
  }

  /** A path component as `PurePosixPath` keeps it: not empty and not ".". */
  predicate Kept(part: string) {
    part != "" && part != "."
  }

  /** The kept components, in order: every component of `parts` that is
      kept appears, and nothing else. */
  function KeptParts(parts: seq<string>): (r: seq<string>)
    ensures forall i :: 0 <= i < |r| ==> Kept(r[i]) && r[i] in parts
    ensures forall x :: x in parts && Kept(x) ==> x in r
  {
    if |parts| == 0 then []
    else
      assert parts == [parts[0]] + parts[1..];
      if Kept(parts[0]) then [parts[0]] + KeptParts(parts[1..])
      else KeptParts(parts[1..])
  }

  /** `KeptParts` is a filter: it keeps a single component exactly when that
      component is kept, and distributes over concatenation, so it
      preserves order. */
  lemma {:induction false} KeptPartsIsFilter(a: seq<string>, b: seq<string>, x: string)
    ensures KeptParts([x]) == (if Kept(x) then [x] else [])
    ensures KeptParts(a + b) == KeptParts(a) + KeptParts(b)
    decreases |a|
  {
    assert [x][1..] == [];
    if |a| == 0 {
      assert a + b == b;
    } else {
      assert (a + b)[0] == a[0] && (a + b)[1..] == a[1..] + b;
      KeptPartsIsFilter(a[1..], b, x);
    }
  }

  /** Components that are all kept survive unchanged. */
  lemma {:induction false} KeptPartsOfKept(parts: seq<string>)
    requires forall i :: 0 <= i < |parts| ==> Kept(parts[i])
    ensures KeptParts(parts) == parts
  {
    if |parts| > 0 {
      KeptPartsOfKept(parts[1..]);
    }
  }

  /** A path as `PurePosixPath` holds it: one of the three anchors, and
      components that are kept and free of slashes. */
  predicate Normal(p: Path) {
    && (p.root == "" || p.root == "/" || p.root == "//")
    && (forall i :: 0 <= i < |p.parts| ==> Kept(p.parts[i]))
    && NoSlash(p.parts)
  }

  /** The anchor `PurePosixPath(s)` takes from the leading slashes: exactly
      two are kept as "//", one or three or more become "/", none means
      relative. */
  function Anchor(s: string): (r: string)
    ensures r == "" || r == "/" || r == "//"
    ensures r == "" <==> !StartsWith(s, "/")
    ensures r == "//" <==> StartsWith(s, "//") && !StartsWith(s, "///")
  {
    if !StartsWith(s, "/") then ""
    else if StartsWith(s, "//") && !StartsWith(s, "///") then "//"
    else "/"
  }

  /** `PurePosixPath(s)`: the anchor, and the kept pieces between slashes.
      Text without a slash is the single component it names, if that one
      is kept; `ParseJoin` states how longer texts break up. */
  function Parse(s: string): (r: Path)
    ensures Normal(r)
    ensures r.root == Anchor(s)
    ensures r.root == "" <==> !StartsWith(s, "/")
    ensures '/' !in s ==> r.parts == (if Kept(s) then [s] else [])
  {
    var pieces := Split(s);
    var parts := KeptParts(pieces);
    KeptPartsIsFilter([], [], s);
    KeptPartsNoSlash(pieces);
    Path(Anchor(s), parts)
  }

  /** Dropping components keeps them free of slashes. */
  lemma KeptPartsNoSlash(pieces: seq<string>)
    requires NoSlash(pieces)
    ensures NoSlash(KeptParts(pieces))
  {
    var parts := KeptParts(pieces);
    forall i | 0 <= i < |parts| ensures '/' !in parts[i] {
      var j :| 0 <= j < |pieces| && pieces[j] == parts[i];
    }
  }

  /** `str(p)`: "." for the empty relative path. Parsing the text of a
      normal path gives the path back. */
  function Text(p: Path): (r: string)
    ensures Normal(p) ==> Parse(r) == p
  {
    var r := if p.root == "" && p.parts == [] then "." else p.root + Join(p.parts);
    assert Normal(p) ==> Parse(r) == p by {
      if Normal(p) {
        ParseText(p, r);
      }
    }
    r
  }

  lemma ParseText(p: Path, r: string)
    requires Normal(p)
    requires r == if p.root == "" && p.parts == [] then "." else p.root + Join(p.parts)
    ensures Parse(r) == p
  {
    if p.parts == [] {
      ParseBareAnchor(p.root, r);
    } else {
      JoinStartsWithPart(p.parts);
      KeptPartsOfKept(p.parts);
      assert NoSlash(p.parts);
      if p.root == "" {
        ParseRelative(p.parts, r);
      } else if p.root == "/" {
        ParseRooted(p.parts, r);
      } else {
        ParseDoubleRooted(p.parts, r);
      }
    }
  }

  lemma ParseBareAnchor(root: string, r: string)
    requires root == "" || root == "/" || root == "//"
    requires r == if root == "" then "." else root
    ensures Parse(r) == Path(root, [])
  {
    if root == "" {
      assert Split(".") == ["."];
      assert KeptParts(["."]) == [];
    } else if root == "/" {
      assert r[1..] == "";
      assert Split(r) == ["", ""];
      assert KeptParts(["", ""]) == [];
    } else {
      assert r[1..] == "/" && r[1..][1..] == "";
      assert Split(r) == ["", "", ""];
      assert KeptParts(["", "", ""]) == [];
    }
  }

  /** The joined text begins with the first character of the first part. */
  lemma JoinStartsWithPart(parts: seq<string>)
    requires |parts| > 0 && Kept(parts[0]) && '/' !in parts[0]
    ensures |Join(parts)| > 0 && Join(parts)[0] == parts[0][0] != '/'
  {
    var first := parts[0];
    assert first[0] in first;
    if |parts| > 1 {
      var tail := "/" + Join(parts[1..]);
      assert Join(parts) == first + tail;
      assert (first + tail)[0] == first[0];
    }
  }

  /** A leading slash contributes one empty piece. */
  lemma SplitLeadingSlash(rest: string)
    ensures Split("/" + rest) == [""] + Split(rest)
  {
    assert ("/" + rest)[1..] == rest;
  }

  lemma ParseRelative(parts: seq<string>, r: string)
    requires |parts| > 0 && NoSlash(parts) && KeptParts(parts) == parts
    requires |Join(parts)| > 0 && Join(parts)[0] != '/'
    requires r == Join(parts)
    ensures Parse(r) == Path("", parts)
  {
    assert Anchor(r) == "" by {
      assert r[..1] != "/" by {
        assert r[..1][0] == r[0];
      }
    }
  }

  lemma ParseRooted(parts: seq<string>, r: string)
    requires |parts| > 0 && NoSlash(parts) && KeptParts(parts) == parts
    requires |Join(parts)| > 0 && Join(parts)[0] != '/'
    requires r == "/" + Join(parts)
    ensures Parse(r) == Path("/", parts)
  {
    assert Anchor(r) == "/" by {
      assert r[..1] == "/";
      assert r[..2] != "//" by {
        assert r[..2][1] == Join(parts)[0];
      }
    }
    SplitLeadingSlash(Join(parts));
    KeptPartsDropsEmpty(parts);
  }

  lemma ParseDoubleRooted(parts: seq<string>, r: string)
    requires |parts| > 0 && NoSlash(parts) && KeptParts(parts) == parts
    requires |Join(parts)| > 0 && Join(parts)[0] != '/'
    requires r == "//" + Join(parts)
    ensures Parse(r) == Path("//", parts)
  {
    var j := Join(parts);
    assert Anchor(r) == "//" by {
      assert r[..1] == "/" && r[..2] == "//";
      assert r[..3] != "///" by {
        assert r[..3][2] == j[0];
      }
    }
    assert Split(r) == [""] + ([""] + parts) by {
      assert r == "/" + ("/" + j);
      SplitLeadingSlash("/" + j);
      SplitLeadingSlash(j);
    }
    KeptPartsDropsEmpty([""] + parts);
    KeptPartsDropsEmpty(parts);
  }

  /** An empty piece in front is dropped. */
  lemma KeptPartsDropsEmpty(parts: seq<string>)
    ensures KeptParts([""] + parts) == KeptParts(parts)
  {
    assert ([""] + parts)[1..] == parts;
  }

  /** `p / s`: an absolute `s` replaces `p`; otherwise its parts are appended. */
  function Child(p: Path, s: string): (r: Path)
    ensures Normal(p) ==> Normal(r)
    ensures !StartsWith(s, "/") ==> r.root == p.root && |r.parts| >= |p.parts| && r.parts[..|p.parts|] == p.parts
    ensures StartsWith(s, "/") ==> r.root != ""
  {
    var q := Parse(s);
    if q.root != "" then q else Path(p.root, p.parts + q.parts)
  }

  /** `(a + "/" + b).split("/")` is `a.split("/") + b.split("/")`. */
  lemma {:induction false} SplitConcat(a: string, b: string)
    ensures Split(a + "/" + b) == Split(a) + Split(b)
    decreases |a|
  {
    if |a| == 0 {
      SplitLeadingSlash(b);
      assert a + "/" + b == "/" + b;
    } else {
      var t := a[1..];
      var x := t + "/" + b;
      assert a == [a[0]] + t;
      assert a + "/" + b == [a[0]] + x;
      SplitConcat(t, b);
      SplitConcatCons(a[0], t, b, x);
    }
  }

  /** One step of `SplitConcat`: putting a character in front of both sides. */
  lemma SplitConcatCons(c: char, t: string, b: string, x: string)
    requires Split(x) == Split(t) + Split(b)
    ensures Split([c] + x) == Split([c] + t) + Split(b)
  {
    if c == '/' {
      assert [c] == "/";
      SplitConcatSlash(t, b, x);
    } else {
      SplitConcatChar(c, t, b, x);
    }
  }

  lemma SplitConcatSlash(t: string, b: string, x: string)
    requires Split(x) == Split(t) + Split(b)
    ensures Split("/" + x) == Split("/" + t) + Split(b)
  {
    SplitLeadingSlash(x);
    SplitLeadingSlash(t);
    ConsConcat("", Split(t), Split(b));
  }

  lemma ConsConcat<T>(e: T, a: seq<T>, b: seq<T>)
    ensures [e] + (a + b) == ([e] + a) + b
  {
  }

  lemma SplitConcatChar(c: char, t: string, b: string, x: string)
    requires c != '/'
    requires Split(x) == Split(t) + Split(b)
    ensures Split([c] + x) == Split([c] + t) + Split(b)
  {
    SplitCons(c, x);
    SplitCons(c, t);
    var rt, rb := Split(t), Split(b);
    ConsHeadConcat([c] + rt[0], rt[1..], rb, rt);
  }

  /** Replacing the first element commutes with appending. */
  lemma ConsHeadConcat<T>(h: T, tl: seq<T>, rb: seq<T>, rt: seq<T>)
    requires |rt| >= 1 && tl == rt[1..]
    ensures [h] + (rt + rb)[1..] == ([h] + tl) + rb
    ensures (rt + rb)[0] == rt[0]
  {
    assert (rt + rb)[1..] == tl + rb;
  }

  /** Splitting text that starts with a character other than "/". */
  lemma SplitCons(c: char, x: string)
    requires c != '/'
    ensures Split([c] + x) == [[c] + Split(x)[0]] + Split(x)[1..]
  {
    assert ([c] + x)[0] == c && ([c] + x)[1..] == x;
  }

  /** The components of `a/b` are those of `a` followed by those of `b`,
      whatever slashes, empty or "." pieces either contains. */
  lemma ParseJoin(a: string, b: string)
    ensures Parse(a + "/" + b).parts == Parse(a).parts + Parse(b).parts
  {
    SplitConcat(a, b);
    KeptPartsIsFilter(Split(a), Split(b), "");
  }

  /** Adding "/" and more text after a nonempty text that does not end in
      "/" leaves the anchor alone. */
  lemma AnchorOfJoin(a: string, b: string)
    requires |a| > 0 && a[|a| - 1] != '/'
    requires !StartsWith(b, "/")
    ensures Anchor(a + "/" + b) == Anchor(a)
  {
    var s := a + "/" + b;
    assert s[0] == a[0];
    assert s[..1] == a[..1];
    if |a| >= 3 {
      assert s[..2] == a[..2] && s[..3] == a[..3];
    } else if |a| == 2 {
      assert s[1] == a[1] != '/';
      assert !StartsWith(s, "//") by {
        assert s[..2][1] == s[1];
      }
      assert !StartsWith(a, "//") by {
        assert a[..2][1] == a[1];
      }
    } else {
      assert !StartsWith(s, "/") by {
        assert s[..1][0] == a[0];
      }
    }
  }

  /** `PurePosixPath(a) / b` for a relative `b` is `PurePosixPath(a + "/" + b)`,
      as `posixpath.join` would spell it. */
  lemma ChildJoinsText(a: string, b: string)
    requires |a| > 0 && a[|a| - 1] != '/'
    requires !StartsWith(b, "/")
    ensures Child(Parse(a), b) == Parse(a + "/" + b)
  {
    ParseJoin(a, b);
    AnchorOfJoin(a, b);
  }

  /** A plain file name: one component, kept as it is. */
  predicate PlainName(s: string) {
    Kept(s) && '/' !in s
  }

  lemma {:induction false} JoinAppend(parts: seq<string>, last: string)
    requires |parts| > 0
    ensures Join(parts + [last]) == Join(parts) + "/" + last
    decreases |parts|
  {
    if |parts| == 1 {
      assert (parts + [last])[1..] == [last];
    } else {
      assert (parts + [last])[1..] == parts[1..] + [last];
      JoinAppend(parts[1..], last);
    }
  }

  /** A plain name parses as a relative path of that one component. */
  lemma ParsePlainName(name: string)
    requires PlainName(name)
    ensures Parse(name) == Path("", [name])
  {
    assert !StartsWith(name, "/") by {
      assert name[0] in name;
    }
    assert Split(name) == [name];
    assert KeptParts([name][1..]) == [];
  }

  /** Below a directory with at least one component, a plain name renders
      as the directory, a slash, and the name. */
  lemma PlainChildText(p: Path, name: string)
    requires |p.parts| > 0
    requires PlainName(name)
    ensures Text(Child(p, name)) == Text(p) + "/" + name
  {
    ParsePlainName(name);
    JoinAppend(p.parts, name);
  }

  /** An absolute name ignores the directory altogether. */
  lemma AbsoluteChildIgnoresBase(p: Path, p': Path, name: string)
    requires StartsWith(name, "/")
    ensures Child(p, name) == Child(p', name) == Parse(name)
  {
  }
}
