/**
 The name normaliser of the exporter loop (src/index.ts:26-29): an asset's
 display name becomes a camel-case identifier in four steps,

   1. lower-case the name,
   2. replace every character outside `[a-zA-Z0-9 ]` by a space,
   3. split on single spaces, upper-case the first character of every piece
      and concatenate the pieces,
   4. lower-case the first character of the result.

 `Marked` is an independent, character-level reading of steps 3 and 4: a
 character is upper-cased exactly when it starts a space-delimited token, and
 the spaces are then dropped. `NormalizeMatchesReference` proves the two agree.
 */
module Naming {
  import opened Ascii

  /** The characters the replacement of step 2 leaves alone: `[a-zA-Z0-9 ]`. */
  predicate Kept(c: char) { IsAlnum(c) || c == ' ' }

  predicate NoUpper(s: string)
  {
    forall i :: 0 <= i < |s| ==> !IsUpper(s[i])
  }

  /** Step 2 (src/index.ts:27): every character that is not an ASCII letter, digit
      or space becomes one space; the others stay where they are. */
  function Sanitize(s: string): (r: string)
    ensures |r| == |s|
    ensures forall i :: 0 <= i < |r| ==> Kept(r[i])
    ensures forall i :: 0 <= i < |s| ==> (IsAlnum(r[i]) <==> IsAlnum(s[i]))
    ensures forall i :: 0 <= i < |s| && Kept(s[i]) ==> r[i] == s[i]
  {
    if s == [] then []
    else [if Kept(s[0]) then s[0] else ' '] + Sanitize(s[1..])
  }

  /** Splitting on single spaces as JavaScript does (src/index.ts:28): never
      empty, one more piece than there are spaces, empty pieces kept. */
  function Split(s: string): (r: seq<string>)
    ensures |r| >= 1
    ensures forall k :: 0 <= k < |r| ==> ' ' !in r[k]
  {
    if s == [] then [""]
    else
      var rest := Split(s[1..]);
      if s[0] == ' ' then [""] + rest
      else [[s[0]] + rest[0]] + rest[1..]
  }

  /** A string without spaces splits into itself alone. */
  lemma {:induction false} SplitNoSpace(w: string)
    requires ' ' !in w
    ensures Split(w) == [w]
  {
    if w != [] {
      SplitNoSpace(w[1..]);
      assert [w[0]] + w[1..] == w;
    }
  }

  /** The first space ends the first piece; the rest is split on its own. */
  lemma {:induction false} SplitAtSpace(a: string, b: string)
    requires ' ' !in a
    ensures Split(a + " " + b) == [a] + Split(b)
  {
    if a == [] {
      assert a + " " + b == [' '] + b;
      assert (a + " " + b)[1..] == b;
    } else {
      SplitAtSpace(a[1..], b);
      assert (a + " " + b)[1..] == a[1..] + " " + b;
      assert [a[0]] + a[1..] == a;
    }
  }

  /** The pieces joined with single spaces: the inverse of `Split`. */
  function JoinSpaces(ws: seq<string>): string
  {
    if |ws| == 0 then ""
    else if |ws| == 1 then ws[0]
    else ws[0] + " " + JoinSpaces(ws[1..])
  }

  /** Splitting on spaces loses nothing: joining the pieces again gives the input back. */
  lemma {:induction false} SplitRoundTrip(s: string)
    ensures JoinSpaces(Split(s)) == s
  {
    if s != [] {
      var rest := Split(s[1..]);
      SplitRoundTrip(s[1..]);
      if s[0] == ' ' {
        assert Split(s) == [""] + rest;
        assert JoinSpaces(Split(s)) == "" + " " + JoinSpaces(rest);
      } else if |rest| == 1 {
        assert JoinSpaces(Split(s)) == [s[0]] + rest[0];
      } else {
        assert JoinSpaces(Split(s)) == [s[0]] + rest[0] + " " + JoinSpaces(rest[1..]);
      }
    }
  }

  /** One piece of step 3 (src/index.ts:28): the first character upper-cased, the
      rest kept; the empty word stays empty. */
  function Capitalize(w: string): (r: string)
    ensures |r| == |w|
    ensures LowerString(r) == LowerString(w)
    ensures |r| > 0 ==> !IsLower(r[0])
    ensures forall i :: 1 <= i < |w| ==> r[i] == w[i]
  {
    if w == [] then "" else LowerOfUpper(w[0]); [ToUpper(w[0])] + w[1..]
  }

  /** The pieces of a split, each capitalised, concatenated without separator. */
  function JoinCapitalized(ws: seq<string>): string
  {
    if ws == [] then "" else Capitalize(ws[0]) + JoinCapitalized(ws[1..])
  }

  /** Step 4 (src/index.ts:29): the first character lower-cased, the rest kept. */
  function LowerFirst(s: string): (r: string)
    ensures |r| == |s|
    ensures LowerString(r) == LowerString(s)
    ensures |r| > 0 ==> !IsUpper(r[0])
    ensures forall i :: 1 <= i < |s| ==> r[i] == s[i]
  {
    if s == [] then "" else [ToLower(s[0])] + s[1..]
  }

  /** The whole normaliser, steps 1 to 4 in the order the source applies them. */
  function Normalize(name: string): string
  {
    LowerFirst(JoinCapitalized(Split(Sanitize(LowerString(name)))))
  }

  // ---------------------------------------------------------------------
  // Character-level reference for steps 3 and 4

  /** Whether position `i` of `t` begins a space-delimited token; `atStart`
      says whether position 0 counts as following a space. */
  predicate StartsToken(t: string, i: nat, atStart: bool)
    requires i < |t|
  {
    if i == 0 then atStart else t[i - 1] == ' '
  }

  /** `t` with the character at every token start upper-cased. */
  function Marked(t: string, atStart: bool): (r: string)
    ensures |r| == |t|
    ensures forall i :: 0 <= i < |t| ==> r[i] == if StartsToken(t, i, atStart) then ToUpper(t[i]) else t[i]
  {
    if t == [] then []
    else
      var r := [if atStart then ToUpper(t[0]) else t[0]] + Marked(t[1..], t[0] == ' ');
      assert forall i :: 1 <= i < |t| ==> StartsToken(t, i, atStart) == StartsToken(t[1..], i - 1, t[0] == ' ');
      r
  }

  /** `s` with its spaces removed. */
  function NonSpaces(s: string): (r: string)
    ensures |r| <= |s|
    ensures ' ' !in r
  {
    if s == [] then [] else (if s[0] == ' ' then [] else [s[0]]) + NonSpaces(s[1..])
  }

  /** The ASCII letters and digits of `s`, in order. */
  function Alnums(s: string): (r: string)
    ensures |r| <= |s|
    ensures forall i :: 0 <= i < |r| ==> IsAlnum(r[i])
  {
    if s == [] then [] else (if IsAlnum(s[0]) then [s[0]] else []) + Alnums(s[1..])
  }

  lemma MarkedCons(c: char, t: string, atStart: bool)
    ensures Marked([c] + t, atStart) == [if atStart then ToUpper(c) else c] + Marked(t, c == ' ')
  {
    assert ([c] + t)[1..] == t;
  }

  lemma NonSpacesCons(c: char, t: string)
    ensures NonSpaces([c] + t) == (if c == ' ' then [] else [c]) + NonSpaces(t)
  {
    assert ([c] + t)[1..] == t;
  }

  lemma JoinCapitalizedCons(w: string, ws: seq<string>)
    ensures JoinCapitalized([w] + ws) == Capitalize(w) + JoinCapitalized(ws)
  {
    assert ([w] + ws)[1..] == ws;
  }

  /** After a space, both readings restart a token. */
  lemma SplitSpaceCons(t: string)
    requires t != [] && t[0] == ' '
    ensures JoinCapitalized(Split(t)) == JoinCapitalized(Split(t[1..]))
    ensures Split(t)[0] + JoinCapitalized(Split(t)[1..]) == JoinCapitalized(Split(t[1..]))
    ensures NonSpaces(Marked(t, true)) == NonSpaces(Marked(t[1..], true))
    ensures NonSpaces(Marked(t, false)) == NonSpaces(Marked(t[1..], true))
  {
    var rest := Split(t[1..]);
    assert t == [t[0]] + t[1..];
    MarkedCons(t[0], t[1..], true);
    MarkedCons(t[0], t[1..], false);
    NonSpacesCons(' ', Marked(t[1..], true));
    JoinCapitalizedCons("", rest);
  }

  /** A non-space character extends the first piece of the split. */
  lemma SplitWordCons(t: string)
    requires t != [] && t[0] != ' '
    ensures Split(t) == [[t[0]] + Split(t[1..])[0]] + Split(t[1..])[1..]
  {
  }

  lemma CapitalizeCons(c: char, w: string)
    ensures Capitalize([c] + w) == [ToUpper(c)] + w
  {
    assert ([c] + w)[1..] == w;
  }

  lemma CapitalizeConsAppend(c: char, first: string, tail: string)
    ensures Capitalize([c] + first) + tail == [ToUpper(c)] + (first + tail)
  {
    CapitalizeCons(c, first);
  }

  /** Joining pieces whose first piece starts with `c`. */
  lemma JoinFirstCons(ws: seq<string>, c: char, first: string)
    requires |ws| >= 1 && ws[0] == [c] + first
    ensures JoinCapitalized(ws) == [ToUpper(c)] + (first + JoinCapitalized(ws[1..]))
  {
    CapitalizeConsAppend(c, first, JoinCapitalized(ws[1..]));
  }

  lemma JoinExtendedFirst(ws: seq<string>, c: char, rest: seq<string>)
    requires |rest| >= 1 && ws == [[c] + rest[0]] + rest[1..]
    ensures JoinCapitalized(ws) == [ToUpper(c)] + (rest[0] + JoinCapitalized(rest[1..]))
    ensures ws[0] + JoinCapitalized(ws[1..]) == [c] + (rest[0] + JoinCapitalized(rest[1..]))
  {
    assert ws[1..] == rest[1..];
    JoinFirstCons(ws, c, rest[0]);
    ConsAppend(c, rest[0], JoinCapitalized(rest[1..]));
  }

  lemma ConsAppend(c: char, a: string, b: string)
    ensures ([c] + a) + b == [c] + (a + b)
  {
  }

  lemma JoinWordCons(t: string)
    requires t != [] && t[0] != ' '
    ensures JoinCapitalized(Split(t))
         == [ToUpper(t[0])] + (Split(t[1..])[0] + JoinCapitalized(Split(t[1..])[1..]))
    ensures Split(t)[0] + JoinCapitalized(Split(t)[1..])
         == [t[0]] + (Split(t[1..])[0] + JoinCapitalized(Split(t[1..])[1..]))
  {
    SplitWordCons(t);
    JoinExtendedFirst(Split(t), t[0], Split(t[1..]));
  }

  lemma MarkedWordCons(t: string)
    requires t != [] && t[0] != ' '
    ensures NonSpaces(Marked(t, true)) == [ToUpper(t[0])] + NonSpaces(Marked(t[1..], false))
    ensures NonSpaces(Marked(t, false)) == [t[0]] + NonSpaces(Marked(t[1..], false))
  {
    var c := t[0];
    assert t == [c] + t[1..];
    MarkedCons(c, t[1..], true);
    MarkedCons(c, t[1..], false);
    NonSpacesCons(ToUpper(c), Marked(t[1..], false));
    NonSpacesCons(c, Marked(t[1..], false));
  }

  /** Split, capitalise and join is the same as upper-casing token starts and
      dropping the spaces. The second conjunct covers the case where the first
      piece is not capitalised (it continues a token begun earlier). */
  lemma {:induction false} JoinCapitalizedSplit(t: string)
    ensures JoinCapitalized(Split(t)) == NonSpaces(Marked(t, true))
    ensures Split(t)[0] + JoinCapitalized(Split(t)[1..]) == NonSpaces(Marked(t, false))
  {
    if t != [] {
      JoinCapitalizedSplit(t[1..]);
      if t[0] == ' ' {
        SplitSpaceCons(t);
      } else {
        JoinWordCons(t);
        MarkedWordCons(t);
      }
    }
  }

  /** The normaliser equals its character-level reference: lower-case and
      sanitise, upper-case every token start, drop the spaces, lower-case the
      first character. */
  lemma NormalizeMatchesReference(name: string)
    ensures Normalize(name) == LowerFirst(NonSpaces(Marked(Sanitize(LowerString(name)), true)))
  {
    JoinCapitalizedSplit(Sanitize(LowerString(name)));
  }

  // ---------------------------------------------------------------------
  // Properties of the normalised name

  /** Upper-casing the token starts keeps exactly the characters `t` had, up to case. */
  lemma {:induction false} MarkedLowersBack(t: string, atStart: bool)
    requires NoUpper(t)
    ensures LowerString(NonSpaces(Marked(t, atStart))) == NonSpaces(t)
  {
    if t != [] {
      var c := t[0];
      assert t == [c] + t[1..];
      MarkedCons(c, t[1..], atStart);
      MarkedLowersBack(t[1..], c == ' ');
      var m := if atStart then ToUpper(c) else c;
      assert Marked(t, atStart) == [m] + Marked(t[1..], c == ' ');
      if c == ' ' {
        assert NonSpaces(Marked(t, atStart)) == NonSpaces(Marked(t[1..], c == ' '));
      } else {
        assert NonSpaces(Marked(t, atStart)) == [m] + NonSpaces(Marked(t[1..], c == ' '));
        LowerOfUpper(c);
        LowerStringAppend([m], NonSpaces(Marked(t[1..], c == ' ')));
      }
    }
  }

  /** Upper-casing the token starts keeps every character a letter, digit or space. */
  lemma {:induction false} MarkedNonSpacesAlnum(t: string, atStart: bool)
    requires forall i :: 0 <= i < |t| ==> Kept(t[i])
    ensures forall i :: 0 <= i < |NonSpaces(Marked(t, atStart))| ==> IsAlnum(NonSpaces(Marked(t, atStart))[i])
  {
    if t != [] {
      var c := t[0];
      assert t == [c] + t[1..];
      MarkedCons(c, t[1..], atStart);
      MarkedNonSpacesAlnum(t[1..], c == ' ');
    }
  }

  /** Dropping the spaces of a sanitised string leaves the letters and digits of the original. */
  lemma {:induction false} SanitizeNonSpaces(s: string)
    ensures NonSpaces(Sanitize(s)) == Alnums(s)
  {
    if s != [] {
      SanitizeNonSpaces(s[1..]);
    }
  }

  /** Lower-casing neither adds nor removes letters and digits. */
  lemma {:induction false} AlnumsLowerLength(s: string)
    ensures |Alnums(LowerString(s))| == |Alnums(s)|
  {
    if s != [] {
      AlnumsLowerLength(s[1..]);
    }
  }

  /** The normalised name consists of ASCII letters and digits only. */
  lemma NormalizeAlphabet(name: string)
    ensures forall i :: 0 <= i < |Normalize(name)| ==> IsAlnum(Normalize(name)[i])
  {
    var t := Sanitize(LowerString(name));
    NormalizeMatchesReference(name);
    MarkedNonSpacesAlnum(t, true);
  }

  /** Up to case, the normalised name is exactly the letters and digits of the
      lower-cased input, in order; so it is never longer than the input. */
  lemma NormalizeContent(name: string)
    ensures LowerString(Normalize(name)) == Alnums(LowerString(name))
    ensures |Normalize(name)| == |Alnums(name)| <= |name|
  {
    var t := Sanitize(LowerString(name));
    NormalizeMatchesReference(name);
    assert NoUpper(t);
    MarkedLowersBack(t, true);
    SanitizeNonSpaces(LowerString(name));
    AlnumsLowerLength(name);
  }

  /** The first character of the normalised name is never an upper-case letter. */
  lemma NormalizeFirstNotUpper(name: string)
    ensures |Normalize(name)| > 0 ==> !IsUpper(Normalize(name)[0])
  {
  }

  /** A display name without ASCII letters or digits normalises to the empty name. */
  lemma NormalizeNoAlnum(name: string)
    requires forall i :: 0 <= i < |name| ==> !IsAlnum(name[i])
    ensures Normalize(name) == ""
  {
    NormalizeContent(name);
    AlnumsNone(name);
  }

  lemma {:induction false} AlnumsNone(s: string)
    requires forall i :: 0 <= i < |s| ==> !IsAlnum(s[i])
    ensures Alnums(s) == ""
  {
    if s != [] {
      AlnumsNone(s[1..]);
    }
  }
}
