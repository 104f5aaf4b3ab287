/** 8.3 short names and slash-separated paths, as the volume writer stores them and the
    volume reader gives them back. */
module FatNames {
  import opened Words

  const SPACE: byte := 0x20
  const DOT: byte := 0x2E
  const SLASH: byte := 0x2F

  type Name = Bytes

  /** ASCII upper case; every other byte stays as it is. */
  function ToUpper(c: byte): byte { if 0x61 <= c <= 0x7A then c - 0x20 else c }

  function Upper(s: Bytes): (r: Bytes)
    ensures |r| == |s|
  {
    seq(|s|, i requires 0 <= i < |s| => ToUpper(s[i]))
  }

  predicate LowerCase(c: byte) { 0x61 <= c <= 0x7A }

  /** The same byte, or the same letter in the other case. */
  predicate SameLetter(a: byte, b: byte) {
    a == b || (0x41 <= a <= 0x5A && b == a + 0x20) || (0x41 <= b <= 0x5A && a == b + 0x20)
  }

  predicate SameButCase(s: Bytes, t: Bytes) { |s| == |t| && forall i :: 0 <= i < |s| ==> SameLetter(s[i], t[i]) }

  predicate NoLowerCase(s: Bytes) { forall i :: 0 <= i < |s| ==> !LowerCase(s[i]) }

  /** The letters a to z, $61 to $7A, become A to Z, $41 to $5A, in their order. */
  lemma UpperLetters(k: nat, c: byte)
    requires k < 26
    ensures ToUpper(0x61 + k) == 0x41 + k
    ensures !(0x61 <= c < 0x61 + 26) ==> ToUpper(c) == c
  {
  }

  /** Two byte strings have the same upper case exactly when they differ in the case of letters only. */
  lemma SameUpperCase(s: Bytes, t: Bytes)
    ensures Upper(s) == Upper(t) <==> SameButCase(s, t)
  {
    if Upper(s) == Upper(t) {
      forall i | 0 <= i < |s|
        ensures SameLetter(s[i], t[i])
      {
        assert Upper(s)[i] == Upper(t)[i];
      }
    }
  }

  /** The upper case is what has no lower-case letter left and differs in case only. */
  lemma UpperCaseIs(s: Bytes, t: Bytes)
    ensures t == Upper(s) <==> SameButCase(s, t) && NoLowerCase(t)
  {
    if SameButCase(s, t) && NoLowerCase(t) {
      forall i | 0 <= i < |t|
        ensures t[i] == Upper(s)[i]
      {
        assert SameLetter(s[i], t[i]) && !LowerCase(t[i]);
      }
    }
  }

  /** Index of the first `b` in `s`, or the length of `s`. */
  function IndexOf(s: Bytes, b: byte): (i: nat)
    ensures i <= |s|
    ensures i < |s| ==> s[i] == b
    ensures forall k :: 0 <= k < i ==> s[k] != b
  {
    if s == [] || s[0] == b then 0 else 1 + IndexOf(s[1..], b)
  }

  lemma IndexOfUnique(s: Bytes, b: byte, i: nat)
    requires i <= |s|
    requires i < |s| ==> s[i] == b
    requires forall k :: 0 <= k < i ==> s[k] != b
    ensures IndexOf(s, b) == i
  {
  }

  // ---- short names ----

  function BasePart(name: Name): Bytes { name[..IndexOf(name, DOT)] }

  function ExtPart(name: Name): Bytes {
    var dot := IndexOf(name, DOT);
    if dot < |name| then name[dot + 1..] else []
  }

  /** The 11 bytes of a directory entry's name field: base and extension, cut and padded. */
  function ShortName(name: Name): (r: Bytes)
    ensures |r| == 11
  {
    Field(BasePart(name), 8) + Field(ExtPart(name), 3)
  }

  function Field(s: Bytes, width: nat): (r: Bytes)
    ensures |r| == width
  {
    seq(width, i requires 0 <= i < width => if i < |s| then ToUpper(s[i]) else SPACE)
  }

  /** The name field of "." and ".." entries. */
  function DotName(dots: nat): (r: Bytes)
    requires dots <= 2
    ensures |r| == 11
  {
    seq(11, i => if i < dots then DOT else SPACE)
  }

  /** The name field the writer makes for a name: "." and ".." are kept as they are. */
  function NameField(name: Name): (r: Bytes)
    ensures |r| == 11
  {
    if name == [DOT] then DotName(1) else if name == [DOT, DOT] then DotName(2) else ShortName(name)
  }

  function TrimRight(s: Bytes): Bytes {
    if s != [] && s[|s| - 1] == SPACE then TrimRight(s[..|s| - 1]) else s
  }

  /** The name a reader shows for a name field. */
  function Dotted(field: Bytes): Name
    requires |field| == 11
  {
    var base, ext := TrimRight(field[..8]), TrimRight(field[8..]);
    if ext == [] then base else base + [DOT] + ext
  }

  predicate EndsInSpace(s: Bytes) { s != [] && s[|s| - 1] == SPACE }

  /** Names that survive being stored: short enough parts, no trailing spaces, and an
      extension wherever there is a dot. */
  predicate Storable(name: Name) {
    && |BasePart(name)| <= 8 && |ExtPart(name)| <= 3
    && !EndsInSpace(BasePart(name)) && !EndsInSpace(ExtPart(name))
    && (DOT in name ==> ExtPart(name) != [])
  }

  lemma UpperKeeps(s: Bytes, b: byte)
    requires b == DOT || b == SPACE || b == SLASH
    ensures IndexOf(Upper(s), b) == IndexOf(s, b)
  {
    IndexOfUnique(Upper(s), b, IndexOf(s, b));
  }

  lemma {:induction false} TrimOfField(s: Bytes, width: nat)
    requires |s| <= width
    ensures TrimRight(Field(s, width)) == TrimRight(Upper(s))
  {
    if |s| == width {
      assert Field(s, width) == Upper(s);
    } else {
      assert Field(s, width)[..width - 1] == Field(s, width - 1);
      TrimOfField(s, width - 1);
    }
  }

  lemma {:induction false} TrimIsPrefix(s: Bytes)
    ensures TrimRight(s) <= s
    ensures !EndsInSpace(TrimRight(s))
    ensures TrimRight(s) == s <==> !EndsInSpace(s)
  {
    if EndsInSpace(s) {
      TrimIsPrefix(s[..|s| - 1]);
    }
  }

  lemma TrimOfUpper(s: Bytes)
    ensures TrimRight(Upper(s)) == Upper(s) <==> !EndsInSpace(s)
  {
    TrimIsPrefix(Upper(s));
  }

  lemma TrimmedField(s: Bytes, width: nat)
    ensures TrimRight(Field(s, width)) == Upper(s) <==> |s| <= width && !EndsInSpace(s)
  {
    TrimIsPrefix(Field(s, width));
    if |s| <= width {
      TrimOfField(s, width);
      TrimOfUpper(s);
    }
  }

  lemma NoDotInBase(name: Name)
    ensures DOT !in BasePart(name)
    ensures DOT !in TrimRight(Field(BasePart(name), 8))
    ensures DOT !in Upper(BasePart(name))
  {
    TrimIsPrefix(Field(BasePart(name), 8));
  }

  lemma SplitAtDot(a: Bytes, b: Bytes, c: Bytes, d: Bytes)
    requires DOT !in a && DOT !in c
    requires a + [DOT] + b == c + [DOT] + d
    ensures a == c && b == d
  {
    var s := a + [DOT] + b;
    IndexOfUnique(s, DOT, |a|);
    assert s == c + [DOT] + d;
    IndexOfUnique(s, DOT, |c|);
    assert a == s[..|a|] && b == s[|a| + 1..];
    assert c == s[..|c|] && d == s[|c| + 1..];
  }

  lemma UpperRoundTrip(name: Name)
    ensures Dotted(ShortName(name)) == Upper(name) <==> Storable(name)
  {
    var b, e := BasePart(name), ExtPart(name);
    var b', e' := TrimRight(Field(b, 8)), TrimRight(Field(e, 3));
    assert ShortName(name)[..8] == Field(b, 8) && ShortName(name)[8..] == Field(e, 3);
    TrimmedField(b, 8);
    TrimmedField(e, 3);
    NoDotInBase(name);
    if DOT in name {
      assert Upper(name) == Upper(b) + [DOT] + Upper(e);
      if e' == [] {
        assert DOT in Upper(b) + [DOT] + Upper(e) by { assert (Upper(b) + [DOT] + Upper(e))[|b|] == DOT; }
        assert Dotted(ShortName(name)) == b';
      } else {
        if b' + [DOT] + e' == Upper(b) + [DOT] + Upper(e) {
          SplitAtDot(b', e', Upper(b), Upper(e));
        }
      }
    } else {
      assert b == name && e == [];
      assert e' == [];
      assert Dotted(ShortName(name)) == b';
    }
  }

  /** A name read back differs from the stored one in case only, with no lower-case letter left, exactly
      when it is storable. */
  lemma NameRoundTrip(name: Name)
    ensures SameButCase(name, Dotted(ShortName(name))) && NoLowerCase(Dotted(ShortName(name))) <==> Storable(name)
  {
    UpperRoundTrip(name);
    UpperCaseIs(name, Dotted(ShortName(name)));
  }

  // ---- paths ----

  /** The directories a file's name goes through (upper-cased, empty parts dropped) and its
      last part, as the writer splits it. */
  function DirParts(name: Bytes): seq<Name>
    decreases |name|
  {
    var slash := IndexOf(name, SLASH);
    if slash == |name| then []
    else
      var part := Upper(name[..slash]);
      (if part == [] then [] else [part]) + DirParts(name[slash + 1..])
  }

  lemma {:induction false} DirPartsAreUpper(name: Bytes, p: Name)
    requires p in DirParts(name)
    ensures Upper(p) == p
    decreases |name|
  {
    var slash := IndexOf(name, SLASH);
    if p in DirParts(name[slash + 1..]) {
      DirPartsAreUpper(name[slash + 1..], p);
    } else {
      assert p == Upper(name[..slash]);
    }
  }

  function Leaf(name: Bytes): Name
    decreases |name|
  {
    var slash := IndexOf(name, SLASH);
    if slash == |name| then name else Leaf(name[slash + 1..])
  }

  /** The parts of an absolute path, as the reader splits it: the non-empty pieces between
      slashes. */
  function Components(path: Bytes): seq<Name>
    decreases |path|
  {
    if path == [] then []
    else if path[0] == SLASH then Components(path[1..])
    else
      var j := IndexOf(path, SLASH);
      [path[..j]] + Components(path[j..])
  }

  lemma {:induction false} ComponentsAtSlash(path: Bytes)
    ensures var j := IndexOf(path, SLASH);
            Components(path) == (if j == 0 then [] else [path[..j]])
                              + (if j == |path| then [] else Components(path[j + 1..]))
  {
    var j := IndexOf(path, SLASH);
    if j == 0 {
      if path != [] { assert path[j + 1..] == path[1..]; }
      assert path[..j] == [];
    } else {
      assert path[0] != SLASH;
      if j < |path| {
        assert path[j..][1..] == path[j + 1..];
      } else {
        assert path[j..] == [];
      }
    }
  }

  lemma UpperSlices(s: Bytes, i: nat)
    requires i <= |s|
    ensures Upper(s)[..i] == Upper(s[..i])
    ensures Upper(s)[i..] == Upper(s[i..])
  {
  }

  lemma {:induction false} ComponentsOfUpper(name: Bytes)
    ensures var j := IndexOf(name, SLASH);
            Components(Upper(name)) == (if j == 0 then [] else [Upper(name[..j])])
                                     + (if j == |name| then [] else Components(Upper(name[j + 1..])))
  {
    var j := IndexOf(name, SLASH);
    UpperKeeps(name, SLASH);
    ComponentsAtSlash(Upper(name));
    UpperSlices(name, j);
    if j < |name| { UpperSlices(name, j + 1); }
  }

  /** All the parts of a file's path, the last one in upper case. */
  function AllParts(name: Bytes): seq<Name> {
    DirParts(name) + (if Leaf(name) == [] then [] else [Upper(Leaf(name))])
  }

  lemma {:induction false} AllPartsStep(name: Bytes)
    ensures var j := IndexOf(name, SLASH);
            AllParts(name) == (if j == 0 then [] else [Upper(name[..j])])
                            + (if j == |name| then [] else AllParts(name[j + 1..]))
  {
    var j := IndexOf(name, SLASH);
    var first: seq<Name> := if j == 0 then [] else [Upper(name[..j])];
    if j == |name| {
      assert name[..j] == name;
      assert AllParts(name) == first + [];
    } else {
      var rest := name[j + 1..];
      var last: seq<Name> := if Leaf(rest) == [] then [] else [Upper(Leaf(rest))];
      var dirs := DirParts(rest);
      assert DirParts(name) == first + dirs && Leaf(name) == Leaf(rest);
      assert AllParts(name) == (first + dirs) + last;
      assert (first + dirs) + last == first + (dirs + last);
    }
  }

  /** The reader splits the upper-cased name into the parts the writer placed the file by. */
  lemma {:induction false} ComponentsOfName(name: Bytes)
    ensures Components(Upper(name)) == AllParts(name)
    decreases |name|
  {
    var j := IndexOf(name, SLASH);
    ComponentsOfUpper(name);
    AllPartsStep(name);
    if j < |name| { ComponentsOfName(name[j + 1..]); }
  }

  lemma ComponentsAbsolute(path: Bytes)
    ensures Components([SLASH] + path) == Components(path)
  {
    assert ([SLASH] + path)[1..] == path;
  }

  /** A path a file is asked for by: a slash and the file's name, its letters in upper case. */
  predicate Asks(path: Bytes, name: Bytes) {
    path != [] && path[0] == SLASH && SameButCase(name, path[1..]) && NoLowerCase(path[1..])
  }

  /** A path made of names and slashes is split into those names. */
  function Joined(parts: seq<Name>): Bytes { if parts == [] then [] else [0x2F] + parts[0] + Joined(parts[1..]) }

  lemma {:induction false} ComponentsOfJoined(parts: seq<Name>)
    requires forall i :: 0 <= i < |parts| ==> parts[i] != [] && 0x2F !in parts[i]
    ensures Components(Joined(parts)) == parts
  {
    if parts != [] {
      var path, rest := Joined(parts), Joined(parts[1..]);
      assert path[1..] == parts[0] + rest;
      IndexOfUnique(parts[0] + rest, SLASH, |parts[0]|);
      assert (parts[0] + rest)[..|parts[0]|] == parts[0] && (parts[0] + rest)[|parts[0]|..] == rest;
      ComponentsOfJoined(parts[1..]);
    }
  }

  // ---- names the consistency checker accepts ----

  /** Characters that may not stand in a name field: `"*+,/:;<=>?[\]|`. */
  predicate Forbidden(c: byte) {
    c in {0x22, 0x2A, 0x2B, 0x2C, 0x2F, 0x3A, 0x3B, 0x3C, 0x3D, 0x3E, 0x3F, 0x5B, 0x5C, 0x5D, 0x7C}
  }

  /** The checker's test of a name field. */
  predicate ValidField(field: Bytes)
    requires |field| == 11
  {
    && field[0] != SPACE
    && forall i :: 0 <= i < 11 ==>
         0x20 <= field[i] <= 0x7E && !(0x61 <= field[i] <= 0x7A) && !Forbidden(field[i])
  }

  /** A valid 8.3 name for a file or a directory, in either case. */
  predicate Valid83(name: Name) {
    && Storable(name)
    && BasePart(name) != [] && name[0] != SPACE
    && forall i :: 0 <= i < |name| ==> 0x20 <= name[i] <= 0x7E && !Forbidden(name[i])
  }

  lemma ValidNameGivesValidField(name: Name)
    requires Valid83(name)
    ensures NameField(name) == ShortName(name)
    ensures ValidField(ShortName(name))
    ensures ShortName(name)[0] != 0 && ShortName(name)[0] != 0xE5
    ensures Upper(name) != [DOT] && Upper(name) != [DOT, DOT]
  {
    var b, e := BasePart(name), ExtPart(name);
    assert forall i :: 0 <= i < |b| ==> b[i] == name[i];
    assert forall i :: 0 <= i < |e| ==> e[i] == name[|b| + 1 + i];
    forall i | 0 <= i < 11
      ensures 0x20 <= ShortName(name)[i] <= 0x7E && !(0x61 <= ShortName(name)[i] <= 0x7A)
           && !Forbidden(ShortName(name)[i])
    {
      if i < 8 {
        if i < |b| { assert ShortName(name)[i] == ToUpper(b[i]); }
      } else if i - 8 < |e| {
        assert ShortName(name)[i] == ToUpper(e[i - 8]);
      }
    }
    assert ShortName(name)[0] == ToUpper(b[0]) == ToUpper(name[0]);
    assert Upper(name)[0] == ToUpper(name[0]) != DOT;
  }
}
