/** The file-name rule of `create_macro` and `create_guide` (server.py): a
    macro name or a guide title becomes the stem of its JSON file name by
    keeping alphanumerics and spaces, stripping, turning spaces into `_` and
    lower-casing. The rule is not idempotent: `_` is itself dropped by a
    second pass (`SlugTwice`). */
module Naming {
  import opened Text
  import opened Storage

  /** `"".join(c for c in name if c.isalnum() or c == ' ')`. */
  function Kept(name: string): (r: string)
    ensures |r| <= |name|
    ensures |r| == |name| <==> forall i :: 0 <= i < |name| ==> IsAlnum(name[i]) || name[i] == ' '
  {
    if name == [] then []
    else (if IsAlnum(name[0]) || name[0] == ' ' then [name[0]] else []) + Kept(name[1..])
  }

  /** `Kept` leaves alphanumerics and spaces only. */
  lemma {:induction false} KeptChars(name: string)
    ensures forall i :: 0 <= i < |Kept(name)| ==> IsAlnum(Kept(name)[i]) || Kept(name)[i] == ' '
  {
    if name != [] {
      KeptChars(name[1..]);
      var head := if IsAlnum(name[0]) || name[0] == ' ' then [name[0]] else [];
      var r := Kept(name);
      forall i | 0 <= i < |r| ensures IsAlnum(r[i]) || r[i] == ' ' {
        assert r == head + Kept(name[1..]);
        if i >= |head| {
          assert r[i] == Kept(name[1..])[i - |head|];
        } else {
          assert r[i] == name[0];
        }
      }
    }
  }

  /** The file stem for a macro name or a guide title: never longer than
      the name. */
  function Slug(name: string): (r: string)
    ensures |r| <= |name|
  {
    var stripped := Strip(Kept(name));
    StripFacts(Kept(name));
    ReplaceCharAt(stripped, ' ', '_');
    LowerAt(ReplaceChar(stripped, ' ', '_'));
    Lower(ReplaceChar(stripped, ' ', '_'))
  }

  /** A slug consists of lower-case letters, digits and `_` only, and never
      starts or ends with `_`. */
  lemma SlugShape(name: string)
    ensures var r := Slug(name);
      && (forall i :: 0 <= i < |r| ==> IsDigit(r[i]) || IsLower(r[i]) || r[i] == '_')
      && (r == [] || (r[0] != '_' && r[|r| - 1] != '_'))
  {
    StrippedKept(name);
    Underscored(Strip(Kept(name)));
  }

  /** Stripping what `Kept` leaves gives alphanumerics and inner spaces. */
  lemma StrippedKept(name: string)
    ensures var s := Strip(Kept(name));
      && (forall i :: 0 <= i < |s| ==> IsAlnum(s[i]) || s[i] == ' ')
      && (s == [] || (IsAlnum(s[0]) && IsAlnum(s[|s| - 1])))
  {
    var kept := Kept(name);
    KeptChars(name);
    StripFacts(kept);
    var k, s := StripOffset(kept), Strip(kept);
    forall i | 0 <= i < |s| ensures IsAlnum(s[i]) || s[i] == ' ' {
      assert s[i] == kept[k + i];
    }
  }

  /** Turning the spaces of such a string into `_` and lower-casing it
      leaves lower-case letters, digits and `_`, with no `_` at either end. */
  lemma Underscored(s: string)
    requires forall i :: 0 <= i < |s| ==> IsAlnum(s[i]) || s[i] == ' '
    requires s == [] || (IsAlnum(s[0]) && IsAlnum(s[|s| - 1]))
    ensures var r := Lower(ReplaceChar(s, ' ', '_'));
      && (forall i :: 0 <= i < |r| ==> IsDigit(r[i]) || IsLower(r[i]) || r[i] == '_')
      && (r == [] || (r[0] != '_' && r[|r| - 1] != '_'))
  {
    var u := ReplaceChar(s, ' ', '_');
    var r := Lower(u);
    ReplaceCharAt(s, ' ', '_');
    LowerAt(u);
    forall i | 0 <= i < |r| ensures IsDigit(r[i]) || IsLower(r[i]) || r[i] == '_' {
      assert r[i] == LowerChar(u[i]);
    }
    if r != [] {
      assert r[0] == LowerChar(u[0]) && u[0] == s[0];
      assert r[|r| - 1] == LowerChar(u[|u| - 1]) && u[|u| - 1] == s[|s| - 1];
    }
  }

  /** The alphanumeric characters of `s`, in order. */
  function Alnums(s: string): string
  {
    if s == [] then [] else (if IsAlnum(s[0]) then [s[0]] else []) + Alnums(s[1..])
  }

  lemma {:induction false} AlnumsAppend(x: string, y: string)
    ensures Alnums(x + y) == Alnums(x) + Alnums(y)
  {
    if x == [] {
      assert x + y == y;
    } else {
      var head := if IsAlnum(x[0]) then [x[0]] else [];
      assert (x + y)[0] == x[0];
      assert (x + y)[1..] == x[1..] + y;
      AlnumsAppend(x[1..], y);
      assert Alnums(x + y) == head + (Alnums(x[1..]) + Alnums(y));
      assert head + (Alnums(x[1..]) + Alnums(y)) == (head + Alnums(x[1..])) + Alnums(y);
    }
  }

  lemma {:induction false} AlnumsNone(x: string)
    requires forall i :: 0 <= i < |x| ==> !IsAlnum(x[i])
    ensures Alnums(x) == []
  {
    if x != [] {
      AlnumsNone(x[1..]);
    }
  }

  lemma {:induction false} AlnumsKept(s: string)
    ensures Alnums(Kept(s)) == Alnums(s)
  {
    if s != [] {
      AlnumsKept(s[1..]);
      var head := if IsAlnum(s[0]) || s[0] == ' ' then [s[0]] else [];
      AlnumsAppend(head, Kept(s[1..]));
    }
  }

  lemma AlnumsStrip(s: string)
    ensures Alnums(Strip(s)) == Alnums(s)
  {
    StripFacts(s);
    var k, r := StripOffset(s), Strip(s);
    assert s == s[..k] + r + s[k + |r|..];
    AlnumsAppend(s[..k] + r, s[k + |r|..]);
    AlnumsAppend(s[..k], r);
    AlnumsNone(s[..k]);
    AlnumsNone(s[k + |r|..]);
  }

  lemma {:induction false} AlnumsUnderscore(s: string)
    ensures Alnums(ReplaceChar(s, ' ', '_')) == Alnums(s)
  {
    if s != [] {
      AlnumsUnderscore(s[1..]);
    }
  }

  lemma {:induction false} AlnumsLower(s: string)
    ensures Alnums(Lower(s)) == Lower(Alnums(s))
  {
    if s != [] {
      AlnumsLower(s[1..]);
      var head := if IsAlnum(s[0]) then [s[0]] else [];
      LowerAppend(head, Alnums(s[1..]));
    }
  }

  /** The slug loses no letter or digit of the name and adds none: its
      alphanumerics are the name's, in order, lower-cased. */
  lemma SlugKeepsAlnums(name: string)
    ensures Alnums(Slug(name)) == Lower(Alnums(name))
  {
    var stripped := Strip(Kept(name));
    AlnumsKept(name);
    AlnumsStrip(Kept(name));
    AlnumsUnderscore(stripped);
    AlnumsLower(ReplaceChar(stripped, ' ', '_'));
  }

  /** A name gives the empty stem (the file `.json`) exactly when it has no
      letter or digit. */
  lemma SlugEmpty(name: string)
    ensures Slug(name) == [] <==> Alnums(name) == []
  {
    SlugKeepsAlnums(name);
    SlugShape(name);
    var r, a := Slug(name), Alnums(name);
    if r != [] {
      assert IsAlnum(r[0]);
      assert Alnums(r) == [r[0]] + Alnums(r[1..]);
      LowerAt(a);
    }
    if a != [] {
      LowerAt(a);
      assert Alnums(r) != [];
    }
  }

  lemma {:induction false} KeptAppend(x: string, y: string)
    ensures Kept(x + y) == Kept(x) + Kept(y)
  {
    if x == [] {
      assert x + y == y;
    } else {
      var head := if IsAlnum(x[0]) || x[0] == ' ' then [x[0]] else [];
      assert (x + y)[0] == x[0];
      assert (x + y)[1..] == x[1..] + y;
      KeptAppend(x[1..], y);
      assert Kept(x + y) == head + (Kept(x[1..]) + Kept(y));
      assert head + (Kept(x[1..]) + Kept(y)) == (head + Kept(x[1..])) + Kept(y);
    }
  }

  lemma {:induction false} KeptAll(s: string)
    requires forall i :: 0 <= i < |s| ==> IsAlnum(s[i]) || s[i] == ' '
    ensures Kept(s) == s
  {
    if s != [] {
      KeptAll(s[1..]);
    }
  }

  datatype Macro = Macro(name: string, template: string)
  datatype AppGuide = AppGuide(appName: string, title: string, content: string)

  /** The reply of `POST /macros` and `POST /app_guides`: the file name
      written, or HTTP 500 with the write error's text. */
  datatype SaveReply = Saved(filename: string) | ServerError(detail: string)

  /** Writing `item` as `<stem>.json` into a folder of JSON files (the folder
      maps file names to what they hold). An existing file of that name is
      replaced. A failing `open` changes nothing; a write that fails after
      `open` has truncated the file leaves an unreadable file of that name.
      Either failure is an HTTP 500 with the error's text. */
  function SaveAs<T>(folder: map<string, Stored<T>>, stem: string, item: T, w: Write, error: string): (out: (SaveReply, map<string, Stored<T>>))
    ensures out.0 == if w.Written? then Saved(stem + ".json") else ServerError(error)
    ensures w.Written? ==> stem + ".json" in out.1 && out.1[stem + ".json"] == Valid(item)
    ensures w.WriteFailed? ==> stem + ".json" in out.1 && out.1[stem + ".json"] == Malformed
    ensures w.OpenFailed? ==> out.1 == folder
    ensures !w.OpenFailed? ==> out.1.Keys == folder.Keys + {stem + ".json"}
    ensures forall f :: f in folder && f != stem + ".json" ==> f in out.1 && out.1[f] == folder[f]
  {
    var name := stem + ".json";
    match w
    case Written => (Saved(name), folder[name := Valid(item)])
    case OpenFailed => (ServerError(error), folder)
    case WriteFailed => (ServerError(error), folder[name := Malformed])
  }

  /** `create_macro`: the macro is stored under its name's slug. */
  function CreateMacro(folder: map<string, Stored<Macro>>, m: Macro, w: Write, error: string): (out: (SaveReply, map<string, Stored<Macro>>))
    ensures w.Written? ==> out.0 == Saved(Slug(m.name) + ".json")
    ensures w.Written? ==> Slug(m.name) + ".json" in out.1 && out.1[Slug(m.name) + ".json"] == Valid(m)
    ensures !w.Written? ==> out.0 == ServerError(error)
  {
    SaveAs(folder, Slug(m.name), m, w, error)
  }

  /** `create_guide`: the guide is stored under its title's slug, by the
      same rule as macros. */
  function CreateGuide(folder: map<string, Stored<AppGuide>>, g: AppGuide, w: Write, error: string): (out: (SaveReply, map<string, Stored<AppGuide>>))
    ensures w.Written? ==> out.0 == Saved(Slug(g.title) + ".json")
    ensures w.Written? ==> Slug(g.title) + ".json" in out.1 && out.1[Slug(g.title) + ".json"] == Valid(g)
    ensures !w.Written? ==> out.0 == ServerError(error)
  {
    SaveAs(folder, Slug(g.title), g, w, error)
  }
}

/** Worked examples of the file-name rule. */
module SlugExamples {
  import opened Text
  import opened Naming

  /** The example of the macro form: punctuation goes, spaces become `_`,
      letters are lower-cased. */
  lemma SlugExample()
    ensures Slug("My Macro! #1") == "my_macro_1"
  {
    KeptExample();
    StripStripped("My Macro 1");
    UnderExample();
    LowerExample();
  }

  lemma KeptExample()
    ensures Kept("My Macro! #1") == "My Macro 1"
  {
    SplitExample();
    KeptPieces();
  }

  lemma SplitExample()
    ensures "My Macro! #1" == "My Macro" + "! #" + "1"
  {
  }

  lemma KeptPieces()
    ensures Kept("My Macro" + "! #" + "1") == "My Macro 1"
  {
    KeptOf("My Macro", "1");
  }

  /** Kept on three pieces: the first and last are kept whole, and the
      middle `"! #"` loses everything but its one space. */
  lemma KeptOf(words: string, tail: string)
    requires forall i :: 0 <= i < |words| ==> IsAlnum(words[i]) || words[i] == ' '
    requires forall i :: 0 <= i < |tail| ==> IsAlnum(tail[i]) || tail[i] == ' '
    ensures Kept(words + "! #" + tail) == words + " " + tail
  {
    var middle := "! #";
    KeptAppend(words + middle, tail);
    KeptAppend(words, middle);
    KeptAll(words);
    KeptAll(tail);
    var m1, m2 := middle[1..], middle[2..];
    assert m1[1..] == m2 && m2[1..] == [];
    assert Kept(m2) == [];
    assert Kept(m1) == " ";
    assert Kept(middle) == " ";
  }

  lemma UnderExample()
    ensures ReplaceChar("My Macro 1", ' ', '_') == "My_Macro_1"
  {
    ReplaceCharAt("My Macro 1", ' ', '_');
  }

  lemma LowerExample()
    ensures Lower("My_Macro_1") == "my_macro_1"
  {
    LowerAt("My_Macro_1");
  }

  /** Slugging a slug can change it again: the `_` that replaced a space is
      not alphanumeric, so the second pass drops it. */
  lemma SlugTwice()
    ensures Slug("a b") == "a_b" && Slug("a_b") == "ab"
  {
    SlugSpaced();
    SlugUnderscored();
  }

  lemma SlugSpaced()
    ensures Slug("a b") == "a_b"
  {
    KeptAll("a b");
    StripStripped("a b");
    ReplaceCharAt("a b", ' ', '_');
    LowerAt("a_b");
  }

  lemma SlugUnderscored()
    ensures Slug("a_b") == "ab"
  {
    var s := "a_b";
    assert s[1..][1..] == "b" && Kept("b") == "b";
    assert Kept(s) == "ab";
    StripStripped("ab");
    ReplaceCharAt("ab", ' ', '_');
    LowerAt("ab");
  }
}
