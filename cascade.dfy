/** Cascade settings of an association: the `javax.persistence.CascadeType` kinds,
    the keyword table that reads a mapping's `cascade` string, and the two
    "does this operation cascade?" queries over a resolved set of kinds. */
module Cascade {
  import opened Wrappers

  /** The constants of `javax.persistence.CascadeType`. The keyword table never
      yields DETACH, but a caller may still ask whether DETACH cascades. */
  datatype CascadeType = ALL | PERSIST | MERGE | REMOVE | REFRESH | DETACH

  // ---------------------------------------------------------------------------
  // Lower-casing (ASCII letters only)
  // ---------------------------------------------------------------------------

  /** `Character.toLowerCase` restricted to the ASCII letters. */
  function LowerChar(c: char): (r: char)
    ensures 'A' <= c <= 'Z' ==> 'a' <= r <= 'z' && r as int - 'a' as int == c as int - 'A' as int
    ensures !('A' <= r <= 'Z')
    ensures !('A' <= c <= 'Z') ==> r == c
    ensures r == ',' <==> c == ','
  {
    if 'A' <= c <= 'Z' then (c as int - 'A' as int + 'a' as int) as char else c
  }

  /** `String.toLowerCase` restricted to the ASCII letters. */
  function Lower(s: string): string
  {
    seq(|s|, i requires 0 <= i < |s| => LowerChar(s[i]))
  }

  /** Lower-casing is idempotent, so a keyword is recognised whatever its case. */
  lemma LowerIdempotent(s: string)
    ensures Lower(Lower(s)) == Lower(s)
  {
  }

  /** A string without upper-case letters is its own lower-case form. */
  lemma LowerFixes(s: string)
    requires forall i :: 0 <= i < |s| ==> !('A' <= s[i] <= 'Z')
    ensures Lower(s) == s
  {
  }

  lemma LowerAppend(a: string, b: string)
    ensures Lower(a + b) == Lower(a) + Lower(b)
  {
    assert forall i :: 0 <= i < |a + b| ==> Lower(a + b)[i] == (Lower(a) + Lower(b))[i];
  }

  // ---------------------------------------------------------------------------
  // Trimming (`String.trim`: every character at or below U+0020 is blank)
  // ---------------------------------------------------------------------------

  predicate IsBlank(c: char) { c <= ' ' }

  predicate AllBlank(s: string) { forall i :: 0 <= i < |s| ==> IsBlank(s[i]) }

  /** Neither end of `s` is blank: `s` is its own trim. */
  predicate Trimmed(s: string) { s == [] || (!IsBlank(s[0]) && !IsBlank(s[|s| - 1])) }

  /** Drops the leading blanks. */
  function TrimStart(s: string): string
    decreases |s|
  {
    if s != [] && IsBlank(s[0]) then TrimStart(s[1..]) else s
  }

  /** Drops the trailing blanks. */
  function TrimEnd(s: string): string
    decreases |s|
  {
    if s != [] && IsBlank(s[|s| - 1]) then TrimEnd(s[..|s| - 1]) else s
  }

  /** `String.trim`. */
  function Trim(s: string): string
  {
    TrimEnd(TrimStart(s))
  }

  /** `TrimStart` removes a blank prefix and stops at a non-blank. */
  lemma {:induction false} TrimStartShape(s: string)
    ensures |TrimStart(s)| <= |s|
    ensures s == s[..|s| - |TrimStart(s)|] + TrimStart(s)
    ensures AllBlank(s[..|s| - |TrimStart(s)|])
    ensures TrimStart(s) == [] || !IsBlank(TrimStart(s)[0])
    decreases |s|
  {
    if s != [] && IsBlank(s[0]) {
      TrimStartShape(s[1..]);
      var n := |s| - |TrimStart(s)|;
      assert s[..n] == [s[0]] + s[1..][..n - 1];
      assert s == [s[0]] + s[1..];
    }
  }

  /** `TrimEnd` removes a blank suffix and stops at a non-blank. */
  lemma {:induction false} TrimEndShape(s: string)
    ensures |TrimEnd(s)| <= |s|
    ensures s == TrimEnd(s) + s[|TrimEnd(s)|..]
    ensures AllBlank(s[|TrimEnd(s)|..])
    ensures TrimEnd(s) == [] || !IsBlank(TrimEnd(s)[|TrimEnd(s)| - 1])
    decreases |s|
  {
    if s != [] && IsBlank(s[|s| - 1]) {
      var init := s[..|s| - 1];
      TrimEndShape(init);
      var n := |TrimEnd(s)|;
      assert s[n..] == init[n..] + [s[|s| - 1]];
      assert s == init + [s[|s| - 1]];
    }
  }

  /** Trimming cuts `s` into blank padding around a trimmed middle, which it returns. */
  lemma TrimShape(s: string)
    ensures Trimmed(Trim(s))
    ensures exists pre, post :: AllBlank(pre) && AllBlank(post) && s == pre + Trim(s) + post
  {
    var t := TrimStart(s);
    TrimStartShape(s);
    TrimEndShape(t);
    var pre := s[..|s| - |t|];
    var post := t[|Trim(s)|..];
    assert s == pre + t;
    assert t == Trim(s) + post;
    assert s == pre + Trim(s) + post;
  }

  lemma {:induction false} TrimStartPadded(pre: string, s: string)
    requires AllBlank(pre)
    requires s == [] || !IsBlank(s[0])
    ensures TrimStart(pre + s) == s
    decreases |pre|
  {
    if pre != [] {
      assert (pre + s)[1..] == pre[1..] + s;
      TrimStartPadded(pre[1..], s);
    } else {
      assert pre + s == s;
    }
  }

  lemma {:induction false} TrimEndPadded(s: string, post: string)
    requires AllBlank(post)
    requires s == [] || !IsBlank(s[|s| - 1])
    ensures TrimEnd(s + post) == s
    decreases |post|
  {
    if post != [] {
      var shorter := post[..|post| - 1];
      assert (s + post)[..|s + post| - 1] == s + shorter;
      TrimEndPadded(s, shorter);
    } else {
      assert s + post == s;
    }
  }

  /** Trimming removes exactly the blank padding around a trimmed word. */
  lemma {:induction false} TrimPadded(pre: string, s: string, post: string)
    requires AllBlank(pre) && AllBlank(post) && Trimmed(s)
    ensures Trim(pre + s + post) == s
  {
    if s == [] {
      assert pre + s + post == pre + post;
      assert AllBlank(pre + post);
      TrimStartPadded(pre + post, []);
      assert pre + post + [] == pre + post;
      TrimEndPadded([], []);
    } else {
      assert pre + s + post == pre + (s + post);
      TrimStartPadded(pre, s + post);
      TrimEndPadded(s, post);
    }
  }

  // ---------------------------------------------------------------------------
  // Splitting on commas (`String.split(",")`)
  // ---------------------------------------------------------------------------

  /** The comma-separated pieces of `s`; there is always at least one. */
  function Split(s: string): (r: seq<string>)
    ensures |r| >= 1
    decreases |s|
  {
    if s == [] then [""]
    else
      var rest := Split(s[1..]);
      if s[0] == ',' then [""] + rest
      else [[s[0]] + rest[0]] + rest[1..]
  }

  /** Glues pieces back together with commas: the inverse of `Split`. */
  function Join(pieces: seq<string>): string
    requires |pieces| >= 1
    decreases |pieces|
  {
    if |pieces| == 1 then pieces[0] else pieces[0] + "," + Join(pieces[1..])
  }

  predicate NoComma(s: string) { forall i :: 0 <= i < |s| ==> s[i] != ',' }

  /** Splitting loses nothing but the commas: no piece contains a comma, and
      joining the pieces gives back the string. */
  lemma {:induction false} SplitJoin(s: string)
    ensures forall j :: 0 <= j < |Split(s)| ==> NoComma(Split(s)[j])
    ensures Join(Split(s)) == s
    decreases |s|
  {
    if s != [] {
      SplitJoin(s[1..]);
      var rest := Split(s[1..]);
      if s[0] == ',' {
        assert Split(s)[1..] == rest;
        assert s == "," + s[1..];
      } else {
        var r := Split(s);
        assert r[0] == [s[0]] + rest[0];
        assert forall j :: 1 <= j < |r| ==> r[j] == rest[j];
        if |rest| == 1 {
          assert s == [s[0]] + rest[0];
        } else {
          assert r[1..] == rest[1..];
          assert Join(rest) == rest[0] + "," + Join(rest[1..]);
          assert s == [s[0]] + s[1..];
        }
      }
    }
  }

  /** Splitting pieces that hold no comma, glued with commas, gives them back. */
  lemma {:induction false} JoinSplit(pieces: seq<string>)
    requires |pieces| >= 1
    requires forall j :: 0 <= j < |pieces| ==> NoComma(pieces[j])
    ensures Split(Join(pieces)) == pieces
    decreases |pieces|
  {
    if |pieces| == 1 {
      SplitWord(pieces[0]);
    } else {
      JoinSplit(pieces[1..]);
      SplitAppend(pieces[0], Join(pieces[1..]));
      SplitWord(pieces[0]);
      assert [pieces[0]] + pieces[1..] == pieces;
    }
  }

  /** A string without commas is a single piece. */
  lemma {:induction false} SplitWord(s: string)
    requires NoComma(s)
    ensures Split(s) == [s]
    decreases |s|
  {
    if s != [] {
      SplitWord(s[1..]);
      assert s == [s[0]] + s[1..];
    }
  }

  /** A leading comma closes an empty first piece. */
  lemma SplitComma(t: string)
    ensures Split([','] + t) == [""] + Split(t)
  {
    assert ([','] + t)[1..] == t;
  }

  /** Any other leading character joins the first piece of the rest. */
  lemma SplitLetter(c: char, t: string)
    requires c != ','
    ensures Split([c] + t) == [[c] + Split(t)[0]] + Split(t)[1..]
  {
    assert ([c] + t)[1..] == t;
  }

  /** Splitting distributes over a comma. */
  lemma {:induction false} SplitAppend(a: string, b: string)
    ensures Split(a + "," + b) == Split(a) + Split(b)
    decreases |a|
  {
    if a == [] {
      assert a + "," + b == [','] + b;
      SplitComma(b);
      assert Split(a) == [""];
    } else {
      var t := a[1..] + "," + b;
      SplitAppend(a[1..], b);
      SplitConsExtends(a[0], t, a[1..], Split(b));
      assert [a[0]] + t == a + "," + b;
      assert [a[0]] + a[1..] == a;
    }
  }

  /** The inductive step of `SplitAppend`: when the pieces of `t` are those of
      `a` followed by `more`, putting one character in front of both keeps it so. */
  lemma SplitConsExtends(c: char, t: string, a: string, more: seq<string>)
    requires Split(t) == Split(a) + more
    ensures Split([c] + t) == Split([c] + a) + more
  {
    if c == ',' {
      SplitCommaExtends(t, a, more);
    } else {
      SplitLetterExtends(c, t, a, more);
    }
  }

  lemma SplitCommaExtends(t: string, a: string, more: seq<string>)
    requires Split(t) == Split(a) + more
    ensures Split([','] + t) == Split([','] + a) + more
  {
    SplitComma(t);
    SplitComma(a);
    PrependPiece("", Split(a), more);
  }

  lemma PrependPiece(piece: string, pieces: seq<string>, more: seq<string>)
    ensures [piece] + (pieces + more) == ([piece] + pieces) + more
  {
  }

  lemma SplitLetterExtends(c: char, t: string, a: string, more: seq<string>)
    requires c != ','
    requires Split(t) == Split(a) + more
    ensures Split([c] + t) == Split([c] + a) + more
  {
    SplitLetter(c, t);
    SplitLetter(c, a);
    ExtendFirstPiece(c, Split(a), more);
  }

  /** Gluing a character onto the first piece commutes with appending pieces. */
  lemma ExtendFirstPiece(c: char, pieces: seq<string>, more: seq<string>)
    requires |pieces| >= 1
    ensures [[c] + (pieces + more)[0]] + (pieces + more)[1..] == ([[c] + pieces[0]] + pieces[1..]) + more
  {
    assert (pieces + more)[0] == pieces[0];
    assert (pieces + more)[1..] == pieces[1..] + more;
  }

  // ---------------------------------------------------------------------------
  // The keyword table and the parse of a `cascade` string
  // ---------------------------------------------------------------------------

  /** The keyword table, in the order of its entries: the kind each supported
      keyword stands for. Keywords outside it ("all-delete-orphan", "lock",
      "replicate", "evict", "delete-orphan", typos) are not supported. */
  const CascadeTypeConversions: seq<(string, CascadeType)> := [
    ("all", ALL),
    ("merge", MERGE),
    ("save-update", PERSIST),
    ("delete", REMOVE),
    ("remove", REMOVE),
    ("refresh", REFRESH),
    ("persist", PERSIST)
  ]

  /** The kind of the first entry whose keyword is `key`, if there is one. */
  function Lookup(entries: seq<(string, CascadeType)>, key: string): (r: Option<CascadeType>)
    ensures r.Some? ==> exists i :: 0 <= i < |entries| && entries[i] == (key, r.value)
    ensures r.None? ==> forall i :: 0 <= i < |entries| ==> entries[i].0 != key
    decreases |entries|
  {
    if entries == [] then None
    else if entries[0].0 == key then Some(entries[0].1)
    else Lookup(entries[1..], key)
  }

  /** The keyword table as a lookup. */
  function Conversion(key: string): (r: Option<CascadeType>)
    ensures r.Some? ==> r.value != DETACH
  {
    Lookup(CascadeTypeConversions, key)
  }

  /** The lookup keys of a sequence of tokens: each token trimmed. */
  function Keys(tokens: seq<string>): (r: seq<string>)
  {
    seq(|tokens|, i requires 0 <= i < |tokens| => Trim(tokens[i]))
  }

  /** The kinds a keyword table gives a sequence of keys, unknown keys
      contributing nothing. */
  function KindsOf(table: seq<(string, CascadeType)>, keys: seq<string>): set<CascadeType>
    decreases |keys|
  {
    if keys == [] then {}
    else
      KindsOf(table, keys[..|keys| - 1])
        + (match Lookup(table, keys[|keys| - 1]) case Some(k) => {k} case None => {})
  }

  /** The kinds named by a `cascade` string: lower-cased, split on commas,
      each piece trimmed and looked up in the keyword table. */
  function Parse(cascade: string): set<CascadeType>
  {
    KindsOf(CascadeTypeConversions, Keys(Split(Lower(cascade))))
  }

  /** A kind is named exactly when some key stands for it. */
  lemma {:induction false} KindsOfMembers(table: seq<(string, CascadeType)>, keys: seq<string>, k: CascadeType)
    ensures k in KindsOf(table, keys) <==> exists i :: 0 <= i < |keys| && Lookup(table, keys[i]) == Some(k)
    decreases |keys|
  {
    if keys != [] {
      var n := |keys| - 1;
      var init := keys[..n];
      KindsOfMembers(table, init, k);
      if k in KindsOf(table, keys) && k in KindsOf(table, init) {
        var i :| 0 <= i < |init| && Lookup(table, init[i]) == Some(k);
        assert keys[i] == init[i];
      }
      if exists i :: 0 <= i < |keys| && Lookup(table, keys[i]) == Some(k) {
        var i :| 0 <= i < |keys| && Lookup(table, keys[i]) == Some(k);
        if i < n {
          assert init[i] == keys[i];
        }
      }
    }
  }

  /** The kinds named by keys are a union over the keys, so their order and
      repetition do not matter. */
  lemma {:induction false} KindsOfAppend(table: seq<(string, CascadeType)>, a: seq<string>, b: seq<string>)
    ensures KindsOf(table, a + b) == KindsOf(table, a) + KindsOf(table, b)
    decreases |b|
  {
    if b == [] {
      assert a + b == a;
    } else {
      var init := b[..|b| - 1];
      KindsOfAppend(table, a, init);
      assert (a + b)[..|a + b| - 1] == a + init;
      assert (a + b)[|a + b| - 1] == b[|b| - 1];
    }
  }

  lemma KeysAppend(a: seq<string>, b: seq<string>)
    ensures Keys(a + b) == Keys(a) + Keys(b)
  {
    assert forall i :: 0 <= i < |a + b| ==> Keys(a + b)[i] == (Keys(a) + Keys(b))[i];
  }

  /** The parse of a `cascade` string is exactly the set of table images of its
      trimmed, lower-cased comma-separated tokens. */
  lemma ParseMembers(cascade: string, k: CascadeType)
    ensures k in Parse(cascade)
        <==> exists t :: t in Split(Lower(cascade)) && Conversion(Trim(t)) == Some(k)
  {
    KindsOfTokens(CascadeTypeConversions, Split(Lower(cascade)), k);
  }

  /** A kind is named by some token exactly when some trimmed token stands for it. */
  lemma KindsOfTokens(table: seq<(string, CascadeType)>, tokens: seq<string>, k: CascadeType)
    ensures k in KindsOf(table, Keys(tokens))
        <==> exists t :: t in tokens && Lookup(table, Trim(t)) == Some(k)
  {
    var keys := Keys(tokens);
    KindsOfMembers(table, keys, k);
    if k in KindsOf(table, keys) {
      var i :| 0 <= i < |keys| && Lookup(table, keys[i]) == Some(k);
      assert tokens[i] in tokens;
    }
    if exists t :: t in tokens && Lookup(table, Trim(t)) == Some(k) {
      var t :| t in tokens && Lookup(table, Trim(t)) == Some(k);
      var i :| 0 <= i < |tokens| && tokens[i] == t;
      assert keys[i] == Trim(t);
    }
  }

  /** Parsing distributes over the commas of a `cascade` string. */
  lemma ParseAppend(a: string, b: string)
    ensures Parse(a + "," + b) == Parse(a) + Parse(b)
  {
    LowerAppend(a + ",", b);
    LowerAppend(a, ",");
    assert Lower(",") == ",";
    SplitAppend(Lower(a), Lower(b));
    KeysAppend(Split(Lower(a)), Split(Lower(b)));
    KindsOfAppend(CascadeTypeConversions, Keys(Split(Lower(a))), Keys(Split(Lower(b))));
  }

  /** Parsing ignores case. */
  lemma ParseIgnoresCase(cascade: string)
    ensures Parse(Lower(cascade)) == Parse(cascade)
  {
    LowerIdempotent(cascade);
  }

  /** Two characters that are equal, or are the upper- and lower-case forms of
      one ASCII letter. */
  predicate SameLetterUpToCase(c: char, d: char)
  {
    || c == d
    || ('A' <= c <= 'Z' && d as int == c as int + ('a' as int - 'A' as int))
    || ('A' <= d <= 'Z' && c as int == d as int + ('a' as int - 'A' as int))
  }

  /** Two strings that differ only in the case of ASCII letters. */
  predicate SameUpToCase(s: string, t: string)
  {
    |s| == |t| && forall i :: 0 <= i < |s| ==> SameLetterUpToCase(s[i], t[i])
  }

  /** Settings that differ only in the case of their letters parse alike. */
  lemma ParseCaseInsensitive(s: string, t: string)
    requires SameUpToCase(s, t)
    ensures Parse(s) == Parse(t)
  {
    assert Lower(s) == Lower(t);
  }

  /** Every keyword of the table is a trimmed word without commas. */
  lemma TableKeysShape()
    ensures forall i :: 0 <= i < |CascadeTypeConversions| ==>
      Trimmed(CascadeTypeConversions[i].0) && NoComma(CascadeTypeConversions[i].0)
  {
    forall i | 0 <= i < |CascadeTypeConversions|
      ensures Trimmed(CascadeTypeConversions[i].0) && NoComma(CascadeTypeConversions[i].0)
    {
      var key := CascadeTypeConversions[i].0;
      assert key[0] != ' ' && key[|key| - 1] != ' ';
    }
  }

  lemma KeywordShape(key: string)
    requires Conversion(key).Some?
    ensures Trimmed(key) && NoComma(key)
  {
    TableKeysShape();
    var i :| 0 <= i < |CascadeTypeConversions| && CascadeTypeConversions[i] == (key, Conversion(key).value);
  }

  lemma LowerNoComma(s: string)
    requires NoComma(s)
    ensures NoComma(Lower(s))
  {
  }

  /** The parse of a string without commas is the kind of its trimmed,
      lower-cased form, if any. */
  lemma ParseSingle(token: string)
    requires NoComma(token)
    ensures Parse(token) == match Conversion(Trim(Lower(token))) case Some(k) => {k} case None => {}
  {
    LowerNoComma(token);
    SplitWord(Lower(token));
    var key := Trim(Lower(token));
    assert Keys([Lower(token)]) == [key];
    assert [key][..0] == [];
    assert KindsOf(CascadeTypeConversions, [key])
        == match Lookup(CascadeTypeConversions, key) case Some(k) => {k} case None => {};
  }

  /** A single keyword, in any case and padded with blanks, parses to its kind. */
  lemma ParseKeyword(pre: string, word: string, post: string)
    requires AllBlank(pre) && AllBlank(post)
    requires Conversion(Lower(word)).Some?
    ensures Parse(pre + word + post) == {Conversion(Lower(word)).value}
  {
    var key := Lower(word);
    KeywordShape(key);
    LowerAppend(pre + word, post);
    LowerAppend(pre, word);
    assert Lower(pre) == pre && Lower(post) == post;
    var lowered := pre + key + post;
    assert Lower(pre + word + post) == lowered;
    assert NoComma(word) by {
      forall i | 0 <= i < |word| ensures word[i] != ',' {
        assert key[i] == LowerChar(word[i]);
      }
    }
    assert NoComma(pre + word + post);
    ParseSingle(pre + word + post);
    TrimPadded(pre, key, post);
  }

  /** A token that is not a keyword adds nothing to the parse. */
  lemma ParseIgnoresUnknown(cascade: string, token: string)
    requires NoComma(token)
    requires Conversion(Trim(Lower(token))) == None
    ensures Parse(cascade + "," + token) == Parse(cascade)
  {
    ParseAppend(cascade, token);
    ParseSingle(token);
  }

  /** "save-update" and "persist" both name PERSIST; "delete" and "remove" both name REMOVE. */
  lemma ConversionSynonyms()
    ensures Conversion("save-update") == Conversion("persist") == Some(PERSIST)
    ensures Conversion("delete") == Conversion("remove") == Some(REMOVE)
  {
  }

  /** Keywords that the table deliberately leaves out are not recognised. */
  lemma ConversionUnsupported()
    ensures Conversion("all-delete-orphan") == None
    ensures Conversion("lock") == None
    ensures Conversion("replicate") == None
    ensures Conversion("evict") == None
    ensures Conversion("delete-orphan") == None
  {
  }

  lemma ParseUpperAll()
    ensures Parse("ALL") == {ALL}
  {
    assert Lower("ALL") == "all";
    ParseKeyword([], "ALL", []);
    assert [] + "ALL" + [] == "ALL";
  }

  lemma ParsePaddedMerge()
    ensures Parse(" Merge ") == {MERGE}
  {
    assert Lower("Merge") == "merge";
    assert " " + "Merge" + " " == " Merge ";
    ParseKeyword(" ", "Merge", " ");
  }

  lemma ParsePaddedRemove()
    ensures Parse(" remove") == {REMOVE}
  {
    LowerFixes("remove");
    assert " " + "remove" + [] == " remove";
    ParseKeyword(" ", "remove", []);
  }

  /** Case and padding do not matter: "ALL, Merge , remove" names ALL, MERGE and REMOVE. */
  lemma ParseMixedCase()
    ensures Parse("ALL, Merge , remove") == {ALL, MERGE, REMOVE}
  {
    assert "ALL, Merge , remove" == "ALL" + "," + " Merge " + "," + " remove";
    ParseUpperAll();
    ParsePaddedMerge();
    ParsePaddedRemove();
    ParseAppend("ALL", " Merge ");
    ParseAppend("ALL" + "," + " Merge ", " remove");
  }

  lemma ParseLowerAll()
    ensures Parse("all") == {ALL}
  {
    LowerFixes("all");
    ParseKeyword([], "all", []);
    assert [] + "all" + [] == "all";
  }

  lemma BogusIsUnknown()
    ensures NoComma("bogus") && Conversion(Trim(Lower("bogus"))) == None
  {
    assert Lower("bogus") == "bogus" by { LowerFixes("bogus"); }
    assert Trim("bogus") == "bogus" by {
      TrimPadded([], "bogus", []);
      assert [] + "bogus" + [] == "bogus";
    }
    BogusIsNoKeyword();
  }

  lemma BogusIsNoKeyword()
    ensures Conversion("bogus") == None
  {
  }

  /** An unknown keyword is dropped: "all,bogus" names ALL only. */
  lemma ParseDropsUnknown()
    ensures Parse("all,bogus") == {ALL}
  {
    assert "all,bogus" == "all" + "," + "bogus";
    ParseLowerAll();
    BogusIsUnknown();
    ParseIgnoresUnknown("all", "bogus");
  }

  // ---------------------------------------------------------------------------
  // The two cascade queries over a resolved set
  // ---------------------------------------------------------------------------

  /** Single-operation query: a null operation never cascades; otherwise the
      operation cascades when the set holds ALL or the operation itself. */
  predicate CascadesOne(cascades: set<CascadeType>, op: Option<CascadeType>)
  {
    op.Some? && (ALL in cascades || op.value in cascades)
  }

  /** Variadic query (match any): the set holds ALL, whatever the operations
      asked about (even a null or empty array), or it holds one of them. A null
      element never matches. */
  predicate AnyCascades(cascades: set<CascadeType>, ops: Option<seq<Option<CascadeType>>>)
  {
    ALL in cascades
    || (ops.Some? && exists i :: 0 <= i < |ops.value| && ops.value[i].Some? && ops.value[i].value in cascades)
  }

  /** ALL makes every operation cascade, in both queries. */
  lemma AllCascadesEverything(cascades: set<CascadeType>, op: CascadeType, ops: Option<seq<Option<CascadeType>>>)
    requires ALL in cascades
    ensures CascadesOne(cascades, Some(op))
    ensures AnyCascades(cascades, ops)
  {
  }

  /** Asking about one operation with either query gives the same answer, except
      for a null operation: the single query says no, the variadic one says yes
      exactly when ALL is in the set. */
  lemma SingleAgreesWithVariadic(cascades: set<CascadeType>, op: Option<CascadeType>)
    ensures op.Some? ==> (CascadesOne(cascades, op) <==> AnyCascades(cascades, Some([op])))
    ensures !CascadesOne(cascades, None)
    ensures AnyCascades(cascades, Some([None])) <==> ALL in cascades
  {
    if op.Some? && op.value in cascades {
      assert [op][0] == op;
    }
  }

  /** The variadic query asks whether any one of the operations cascades. */
  lemma VariadicIsAnySingle(cascades: set<CascadeType>, ops: seq<Option<CascadeType>>)
    requires ALL !in cascades
    ensures AnyCascades(cascades, Some(ops))
        <==> exists i :: 0 <= i < |ops| && CascadesOne(cascades, ops[i])
  {
  }
}
