/** The JavaScript string operations the two components rely on, over `seq<char>`:
    `trim`, `toLowerCase`, `startsWith`, `substring`, `split(' ')` and `join(' ')`. */
module Text {

  /** The characters `String.prototype.trim` removes that this model knows about:
      ASCII white space, the no-break space, the byte-order mark and the Unicode
      line and paragraph separators. */
  predicate IsWhitespace(c: char) {
    c == ' ' || c == '\t' || c == '\n' || c == '\r' || c == '\U{000B}' || c == '\U{000C}'
    || c == '\U{00A0}' || c == '\U{FEFF}' || c == '\U{2028}' || c == '\U{2029}'
  }

  predicate AllWhitespace(s: string) {
    forall i :: 0 <= i < |s| ==> IsWhitespace(s[i])
  }

  /** Drops the leading white space: what is removed is white space, what is kept
      is a suffix of `s` that starts with something else. */
  function TrimStart(s: string): (r: string)
    ensures |r| <= |s| && r == s[|s| - |r|..]
    ensures forall i :: 0 <= i < |s| - |r| ==> IsWhitespace(s[i])
    ensures r == [] || !IsWhitespace(r[0])
  {
    if s != [] && IsWhitespace(s[0]) then
      var r := TrimStart(s[1..]);
      assert forall i :: 1 <= i < |s| - |r| ==> s[i] == s[1..][i - 1];
      r
    else s
  }

  /** Drops the trailing white space: what is removed is white space, what is kept
      is a prefix of `s` that ends with something else. */
  function TrimEnd(s: string): (r: string)
    ensures |r| <= |s| && r == s[..|r|]
    ensures forall i :: |r| <= i < |s| ==> IsWhitespace(s[i])
    ensures r == [] || !IsWhitespace(r[|r| - 1])
  {
    if s != [] && IsWhitespace(s[|s| - 1]) then
      var r := TrimEnd(s[..|s| - 1]);
      assert forall i :: |r| <= i < |s| - 1 ==> s[i] == s[..|s| - 1][i];
      r
    else s
  }

  /** `s.trim()`: the part of `s` between its leading and trailing white space.
      It is empty exactly when `s` is nothing but white space. */
  function Trim(s: string): (r: string)
    ensures r == [] <==> AllWhitespace(s)
    ensures r != [] ==> !IsWhitespace(r[0]) && !IsWhitespace(r[|r| - 1])
    ensures |r| <= |s|
  {
    var t := TrimStart(s);
    var r := TrimEnd(t);
    TrimEmptyIff(s, t, r);
    r
  }

  lemma TrimEmptyIff(s: string, t: string, r: string)
    requires t == TrimStart(s) && r == TrimEnd(t)
    ensures r == [] <==> AllWhitespace(s)
    ensures r != [] ==> !IsWhitespace(r[0]) && !IsWhitespace(r[|r| - 1])
    ensures |r| <= |s|
  {
    if r != [] {
      assert r[0] == t[0];
    }
  }

  /** `s.trim()` of padding around a core that starts and ends with a non-white
      character gives back exactly that core. */
  lemma {:induction false} TrimOfPadded(pre: string, core: string, post: string)
    requires AllWhitespace(pre) && AllWhitespace(post)
    requires core != [] ==> !IsWhitespace(core[0]) && !IsWhitespace(core[|core| - 1])
    ensures core != [] ==> Trim(pre + core + post) == core
    ensures core == [] ==> Trim(pre + core + post) == []
  {
    var s := pre + core + post;
    if core == [] {
      assert forall i :: 0 <= i < |s| ==> IsWhitespace(s[i]) by {
        forall i | 0 <= i < |s| ensures IsWhitespace(s[i]) {
          if i < |pre| { assert s[i] == pre[i]; } else { assert s[i] == post[i - |pre|]; }
        }
      }
    } else {
      TrimStartOfPadded(pre, core + post);
      assert pre + core + post == pre + (core + post);
      TrimEndOfPadded(core, post);
    }
  }

  lemma {:induction false} TrimStartOfPadded(pre: string, rest: string)
    requires AllWhitespace(pre)
    requires rest != [] && !IsWhitespace(rest[0])
    ensures TrimStart(pre + rest) == rest
    decreases |pre|
  {
    if pre == [] {
      assert pre + rest == rest;
    } else {
      assert (pre + rest)[0] == pre[0];
      assert (pre + rest)[1..] == pre[1..] + rest;
      TrimStartOfPadded(pre[1..], rest);
    }
  }

  lemma {:induction false} TrimEndOfPadded(core: string, post: string)
    requires AllWhitespace(post)
    requires core != [] && !IsWhitespace(core[|core| - 1])
    ensures TrimEnd(core + post) == core
    decreases |post|
  {
    if post == [] {
      assert core + post == core;
    } else {
      var s := core + post;
      assert s[|s| - 1] == post[|post| - 1];
      assert s[..|s| - 1] == core + post[..|post| - 1];
      TrimEndOfPadded(core, post[..|post| - 1]);
    }
  }

  /** Trimming twice is trimming once. */
  lemma TrimIdempotent(s: string)
    ensures Trim(Trim(s)) == Trim(s)
  {
    TrimOfPadded([], Trim(s), []);
    assert [] + Trim(s) + [] == Trim(s);
  }

  /** `toLowerCase` on one character. Only the ASCII letters A-Z are mapped. */
  function LowerChar(c: char): char {
    if 'A' <= c <= 'Z' then (c as int - 'A' as int + 'a' as int) as char else c
  }

  /** `s.toLowerCase()`, character by character. */
  function ToLower(s: string): (r: string)
    ensures |r| == |s|
    ensures forall i :: 0 <= i < |s| ==> r[i] == LowerChar(s[i])
    ensures forall i :: 0 <= i < |r| ==> !('A' <= r[i] <= 'Z')
    ensures forall i :: 0 <= i < |s| && !('A' <= s[i] <= 'Z') ==> r[i] == s[i]
  {
    if s == [] then [] else [LowerChar(s[0])] + ToLower(s[1..])
  }

  /** The comparison `a.toLowerCase() === b.toLowerCase()`. */
  predicate EqualsIgnoringCase(a: string, b: string)
    ensures EqualsIgnoringCase(a, b) <==>
              |a| == |b| && forall i :: 0 <= i < |a| ==> LowerChar(a[i]) == LowerChar(b[i])
  {
    ToLower(a) == ToLower(b)
  }

  /** `s.startsWith(p)`. */
  predicate StartsWith(s: string, p: string)
    ensures StartsWith(s, p) <==> |p| <= |s| && forall i :: 0 <= i < |p| ==> s[i] == p[i]
  {
    |p| <= |s| && s[..|p|] == p
  }

  /** `s.substring(0, n)`: at most the first `n` characters. */
  function Take(s: string, n: nat): (r: string)
    ensures |r| == if |s| <= n then |s| else n
    ensures StartsWith(s, r)
  {
    if |s| <= n then s else s[..n]
  }

  /** `s.substring(i)`: everything from position `i` on, empty past the end. */
  function Suffix(s: string, i: nat): (r: string)
    ensures i <= |s| ==> s == s[..i] + r
    ensures i >= |s| ==> r == []
  {
    if i >= |s| then [] else s[i..]
  }

  /** `s.split(' ')`: the pieces between single spaces, in order; there is always
      at least one piece, and two adjacent spaces give an empty piece. */
  function Split(s: string): (r: seq<string>)
    ensures |r| >= 1
    ensures forall k :: 0 <= k < |r| ==> ' ' !in r[k]
  {
    if s == [] then [[]]
    else
      var rest := Split(s[1..]);
      if s[0] == ' ' then [[]] + rest
      else [[s[0]] + rest[0]] + rest[1..]
  }

  /** `s.split(' ')[0]`: the text before the first space. */
  function FirstWord(s: string): (r: string)
    ensures StartsWith(s, r)
    ensures ' ' !in r
    ensures |r| < |s| ==> s[|r|] == ' '
  {
    SplitHeadIsPrefix(s);
    Split(s)[0]
  }

  lemma {:induction false} SplitHeadIsPrefix(s: string)
    ensures StartsWith(s, Split(s)[0])
    ensures |Split(s)[0]| < |s| ==> s[|Split(s)[0]|] == ' '
  {
    if s != [] && s[0] != ' ' {
      SplitHeadIsPrefix(s[1..]);
    }
  }

  /** Total number of characters in the words. */
  function TotalLength(ws: seq<string>): nat {
    if ws == [] then 0 else |ws[0]| + TotalLength(ws[1..])
  }

  /** `ws.join(' ')`: the words in order, one space between neighbours. */
  function Join(ws: seq<string>): (r: string)
    ensures |ws| >= 1 ==> |r| == TotalLength(ws) + |ws| - 1 && StartsWith(r, ws[0])
    ensures |ws| == 0 ==> r == []
    ensures |ws| >= 2 ==> r[|ws[0]|] == ' '
  {
    if |ws| == 0 then []
    else if |ws| == 1 then ws[0]
    else ws[0] + " " + Join(ws[1..])
  }

  predicate NoSpaces(ws: seq<string>) {
    forall k :: 0 <= k < |ws| ==> ' ' !in ws[k]
  }

  /** A piece without spaces, followed by a space and more text, splits into that
      piece followed by the pieces of the rest. */
  lemma {:induction false} SplitAfterWord(w: string, rest: string)
    requires ' ' !in w
    ensures Split(w + " " + rest) == [w] + Split(rest)
    decreases |w|
  {
    if w == [] {
      assert w + " " + rest == [' '] + rest;
      assert ([' '] + rest)[1..] == rest;
    } else {
      var s := w + " " + rest;
      assert s[0] == w[0];
      assert s[1..] == w[1..] + " " + rest;
      SplitAfterWord(w[1..], rest);
      assert [w[0]] + w[1..] == w;
    }
  }

  /** A piece without spaces splits into itself. */
  lemma {:induction false} SplitOfWord(w: string)
    requires ' ' !in w
    ensures Split(w) == [w]
    decreases |w|
  {
    if w != [] {
      assert w[0] != ' ';
      SplitOfWord(w[1..]);
      assert [w[0]] + w[1..] == w;
    }
  }

  /** Splitting the joined words on spaces gives the words back, as long as there
      is at least one word and none contains a space. */
  lemma {:induction false} SplitJoin(ws: seq<string>)
    requires |ws| >= 1 && NoSpaces(ws)
    ensures Split(Join(ws)) == ws
    decreases |ws|
  {
    if |ws| == 1 {
      SplitOfWord(ws[0]);
    } else {
      assert ' ' !in ws[0];
      SplitAfterWord(ws[0], Join(ws[1..]));
      SplitJoin(ws[1..]);
      assert [ws[0]] + ws[1..] == ws;
    }
  }

  /** Position in `Join(ws)` at which word `k` starts. */
  function WordStart(ws: seq<string>, k: nat): nat
    requires k < |ws|
  {
    if k == 0 then 0 else |ws[0]| + 1 + WordStart(ws[1..], k - 1)
  }

  /** The joined text from the start of word `k` on is the join of the words from
      `k` on. */
  lemma {:induction false} JoinFromWordStart(ws: seq<string>, k: nat)
    requires k < |ws|
    ensures WordStart(ws, k) <= |Join(ws)|
    ensures Join(ws)[WordStart(ws, k)..] == Join(ws[k..])
    decreases k
  {
    if k > 0 {
      var head := ws[0] + " ";
      var tail := Join(ws[1..]);
      var b := WordStart(ws[1..], k - 1);
      assert Join(ws) == head + tail;
      assert WordStart(ws, k) == |head| + b;
      JoinFromWordStart(ws[1..], k - 1);
      assert ws[1..][k - 1..] == ws[k..];
      DropAfterPrefix(head, tail, b);
    }
  }

  /** Dropping past a known prefix drops from what follows it. */
  lemma DropAfterPrefix(head: string, tail: string, b: nat)
    requires b <= |tail|
    ensures (head + tail)[|head| + b..] == tail[b..]
  {
  }

  /** The text the speech engine reports starting at word `k` begins with word `k`:
      its first space-separated piece is exactly that word. */
  lemma WordAtWordStart(ws: seq<string>, k: nat)
    requires k < |ws| && NoSpaces(ws)
    ensures FirstWord(Suffix(Join(ws), WordStart(ws, k))) == ws[k]
  {
    JoinFromWordStart(ws, k);
    var rest := ws[k..];
    assert Suffix(Join(ws), WordStart(ws, k)) == Join(rest);
    SplitJoin(rest);
  }
}
