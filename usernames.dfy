/** User-name derivation (app/js/_index.js, createUserNames): an account's
    user name is the lower-cased first letter of each space-separated word of
    its owner's name, `owner.toLowerCase().split(' ').map(n => n[0]).join('')`. */
module UserNames {

  function LowerChar(c: char): char
  {
    if 'A' <= c <= 'Z' then (c as int + 32) as char else c
  }

  predicate IsUpper(c: char)
  {
    'A' <= c <= 'Z'
  }

  /** `toLowerCase()`, restricted to the ASCII letters. */
  function Lower(s: string): (r: string)
    ensures |r| == |s|
    ensures forall i :: 0 <= i < |s| ==> r[i] == LowerChar(s[i])
  {
    seq(|s|, i requires 0 <= i < |s| => LowerChar(s[i]))
  }

  /** `s.split(sep)`: the pieces between separators, always at least one
      (the empty string splits into `[""]`, two adjacent separators give an
      empty piece). */
  function Split(s: string, sep: char): (r: seq<string>)
    ensures |r| >= 1
    ensures forall k :: 0 <= k < |r| ==> sep !in r[k]
  {
    if s == [] then [""]
    else if s[0] == sep then [""] + Split(s[1..], sep)
    else
      var t := Split(s[1..], sep);
      [[s[0]] + t[0]] + t[1..]
  }

  /** `pieces.join(sep)`. */
  function Join(pieces: seq<string>, sep: char): string
  {
    if pieces == [] then ""
    else if |pieces| == 1 then pieces[0]
    else pieces[0] + [sep] + Join(pieces[1..], sep)
  }

  /** Splitting and joining again with the same separator gives back the
      string: together with "no piece contains the separator" this pins
      Split down. */
  lemma {:induction false} JoinSplit(s: string, sep: char)
    ensures Join(Split(s, sep), sep) == s
  {
    if s != [] {
      JoinSplit(s[1..], sep);
      var t := Split(s[1..], sep);
      if s[0] == sep {
        assert ([""] + t)[1..] == t;
      } else {
        assert ([[s[0]] + t[0]] + t[1..])[1..] == t[1..];
        if |t| == 1 {
          assert s == [s[0]] + t[0];
        } else {
          assert Join(t, sep) == t[0] + [sep] + Join(t[1..], sep);
          assert s == [s[0]] + s[1..];
        }
      }
    }
  }

  /** `.map(name => name[0]).join('')`: the first character of each piece; an
      empty piece gives `undefined`, which `join` writes as nothing. */
  function Initials(pieces: seq<string>): string
  {
    if pieces == [] then ""
    else (if pieces[0] == [] then "" else [pieces[0][0]]) + Initials(pieces[1..])
  }

  /** The user name createUserNames assigns to an account with this owner. */
  function UserName(owner: string): string
  {
    Initials(Split(Lower(owner), ' '))
  }

  /** An independent reading of the same rule, one character at a time: keep
      every non-space character that starts a word (the first character, or
      one right after a space). */
  function WordStarts(s: string, atStart: bool): string
  {
    if s == [] then ""
    else if s[0] == ' ' then WordStarts(s[1..], true)
    else (if atStart then [s[0]] else "") + WordStarts(s[1..], false)
  }

  lemma {:induction false} InitialsAreWordStarts(s: string)
    ensures Initials(Split(s, ' ')) == WordStarts(s, true)
    ensures Initials(Split(s, ' ')[1..]) == WordStarts(s, false)
  {
    if s != [] {
      InitialsAreWordStarts(s[1..]);
      var t := Split(s[1..], ' ');
      if s[0] == ' ' {
        assert ([""] + t)[1..] == t;
      } else {
        var p := [[s[0]] + t[0]] + t[1..];
        assert p[1..] == t[1..];
      }
    }
  }

  /** The user name is exactly the word starts of the lower-cased owner. */
  lemma UserNameIsWordStarts(owner: string)
    ensures UserName(owner) == WordStarts(Lower(owner), true)
  {
    InitialsAreWordStarts(Lower(owner));
  }

  lemma {:induction false} WordStartsFrom(s: string, atStart: bool)
    ensures |WordStarts(s, atStart)| <= |s|
    ensures forall c :: c in WordStarts(s, atStart) ==> c in s
  {
    if s != [] {
      WordStartsFrom(s[1..], s[0] == ' ' || !atStart);
      WordStartsFrom(s[1..], s[0] == ' ');
    }
  }

  /** A user name has no upper-case letter and is no longer than the owner's
      name. */
  lemma UserNameIsLowerCase(owner: string)
    ensures |UserName(owner)| <= |owner|
    ensures forall c :: c in UserName(owner) ==> !IsUpper(c)
  {
    UserNameIsWordStarts(owner);
    WordStartsFrom(Lower(owner), true);
  }

  lemma {:induction false} InsideWord(w: string, rest: string)
    requires ' ' !in w
    ensures WordStarts(w + rest, false) == WordStarts(rest, false)
  {
    if w != [] {
      assert (w + rest)[0] == w[0] && w[0] in w;
      assert (w + rest)[1..] == w[1..] + rest;
      InsideWord(w[1..], rest);
    } else {
      assert w + rest == rest;
    }
  }

  /** Two words give their two initials. */
  lemma TwoWords(a: string, b: string)
    requires |a| > 0 && |b| > 0 && ' ' !in a && ' ' !in b
    ensures WordStarts(a + " " + b, true) == [a[0], b[0]]
  {
    var s := a + " " + b;
    assert s[1..] == a[1..] + (" " + b);
    InsideWord(a[1..], " " + b);
    assert (" " + b)[1..] == b;
    assert b == b + "";
    assert b[1..] + "" == b[1..];
    InsideWord(b[1..], "");
  }

  lemma {:induction false} LowerAppend(a: string, b: string)
    ensures Lower(a + b) == Lower(a) + Lower(b)
  {
    if a == [] {
      assert a + b == b;
    } else {
      assert (a + b)[1..] == a[1..] + b;
      LowerAppend(a[1..], b);
    }
  }

  /** Lower-casing never creates or removes a space, so it can be done before
      or after picking the word starts. */
  lemma {:induction false} WordStartsOfLower(s: string, atStart: bool)
    ensures WordStarts(Lower(s), atStart) == Lower(WordStarts(s, atStart))
  {
    if s != [] {
      var l := Lower(s);
      assert l[1..] == Lower(s[1..]);
      WordStartsOfLower(s[1..], true);
      WordStartsOfLower(s[1..], false);
      if s[0] != ' ' {
        var h := if atStart then [s[0]] else "";
        LowerAppend(h, WordStarts(s[1..], false));
      }
    }
  }

  lemma OwnerInitials(owner: string, first: string, last: string)
    requires owner == first + " " + last
    requires |first| > 0 && |last| > 0 && ' ' !in first && ' ' !in last
    ensures UserName(owner) == Lower([first[0], last[0]])
  {
    UserNameIsWordStarts(owner);
    WordStartsOfLower(owner, true);
    TwoWords(first, last);
  }

  /** The two seed owners. */
  lemma SeedUserNames()
    ensures UserName("Jonas Schmedtmann") == "js"
    ensures UserName("Jessica Davis") == "jd"
  {
    TwoWordUserName("Jonas", "Schmedtmann");
    assert "Jonas" + " " + "Schmedtmann" == "Jonas Schmedtmann";
    TwoWordUserName("Jessica", "Davis");
    assert "Jessica" + " " + "Davis" == "Jessica Davis";
  }

  /** An owner "First Last" gets the lower-cased first letters of the two
      words, character by character. */
  lemma TwoWordUserName(first: string, last: string)
    requires |first| > 0 && |last| > 0 && ' ' !in first && ' ' !in last
    ensures UserName(first + " " + last) == [LowerChar(first[0]), LowerChar(last[0])]
  {
    OwnerInitials(first + " " + last, first, last);
    LowerInitials(first[0], last[0]);
  }

  lemma LowerInitials(a: char, b: char)
    ensures Lower([a, b]) == [LowerChar(a), LowerChar(b)]
  {
  }
}
