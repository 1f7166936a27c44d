/**
 * Cleaning the model's reply before JSON.parse: every "```json" and "```"
 * is removed, as a global regular-expression replace does, and the result
 * is trimmed of JavaScript white space.
 */
module Text {

  const JsonFence: string := "```json"
  const Fence: string := "```"

  /** White space and line terminators as String.prototype.trim removes them. */
  const JsWhitespace: set<char> := {
    '\t', '\n', '\U{000B}', '\U{000C}', '\r', ' ', '\U{00A0}', '\U{1680}',
    '\U{2000}', '\U{2001}', '\U{2002}', '\U{2003}', '\U{2004}', '\U{2005}',
    '\U{2006}', '\U{2007}', '\U{2008}', '\U{2009}', '\U{200A}',
    '\U{2028}', '\U{2029}', '\U{202F}', '\U{205F}', '\U{3000}', '\U{FEFF}'
  }

  predicate IsJsWhitespace(c: char)
  {
    c in JsWhitespace
  }

  /** Three backquotes start at index i. */
  predicate FenceAt(s: string, i: int)
  {
    0 <= i && i + 3 <= |s| && s[i] == '`' && s[i + 1] == '`' && s[i + 2] == '`'
  }

  predicate HasFence(s: string)
  {
    exists i | 0 <= i < |s| :: FenceAt(s, i)
  }

  /**
   * replace(/```json|```/g, ""): scanning left to right, at each position
   * "```json" is tried before "```"; a match is dropped and the scan resumes
   * after it, any other character is kept.
   */
  function RemoveFences(s: string): string
    decreases |s|
  {
    if |s| >= 7 && s[..7] == JsonFence then RemoveFences(s[7..])
    else if FenceAt(s, 0) then RemoveFences(s[3..])
    else if s == [] then []
    else [s[0]] + RemoveFences(s[1..])
  }

  /** A first character that cannot begin a fence is kept. */
  lemma RemoveFencesKeepsHead(s: string)
    requires s != [] && (s[0] != '`' || |s| < 3 || s[1] != '`' || s[2] != '`')
    ensures RemoveFences(s) == [s[0]] + RemoveFences(s[1..])
  {
    assert !FenceAt(s, 0);
    if |s| >= 7 {
      var h := s[..7];
      assert h[0] == s[0] && h[1] == s[1] && h[2] == s[2];
      assert JsonFence[0] == '`' && JsonFence[1] == '`' && JsonFence[2] == '`';
      assert h != JsonFence;
    }
  }

  /** No "```" survives the replace, even where removing one brings backquotes together. */
  lemma {:induction false} RemoveFencesLeavesNoFence(s: string)
    ensures !HasFence(RemoveFences(s))
    decreases |s|
  {
    if |s| >= 7 && s[..7] == JsonFence {
      RemoveFencesLeavesNoFence(s[7..]);
    } else if FenceAt(s, 0) {
      RemoveFencesLeavesNoFence(s[3..]);
    } else if s != [] {
      RemoveFencesKeepsHead(s);
      var t := RemoveFences(s[1..]);
      var r := RemoveFences(s);
      RemoveFencesLeavesNoFence(s[1..]);
      // t cannot start with two backquotes when s[0] is one
      assert s[0] == '`' ==> |t| < 2 || t[0] != '`' || t[1] != '`' by {
        if s[0] == '`' && |s| >= 2 {
          var u := s[1..];
          if u[0] != '`' {
            RemoveFencesKeepsHead(u);
          } else {
            assert |u| < 2 || u[1] != '`';
            RemoveFencesKeepsHead(u);
            if |u| >= 2 {
              RemoveFencesKeepsHead(u[1..]);
            }
          }
        }
      }
      forall i | FenceAt(r, i) ensures false {
        if i > 0 {
          assert FenceAt(t, i - 1);
        }
      }
    }
  }

  /** Text with no "```" in it passes through the replace unchanged. */
  lemma {:induction false} RemoveFencesNoOp(s: string)
    requires !HasFence(s)
    ensures RemoveFences(s) == s
    decreases |s|
  {
    if s != [] {
      assert !FenceAt(s, 0);
      RemoveFencesKeepsHead(s);
      assert !HasFence(s[1..]) by {
        forall i | FenceAt(s[1..], i) ensures false {
          assert FenceAt(s, i + 1);
        }
      }
      RemoveFencesNoOp(s[1..]);
    }
  }

  /** A reply wrapped as "```json" + body + "```", with no backquote in the body, loses exactly the wrapper. */
  lemma {:induction false} RemoveFencesUnwraps(body: string)
    requires forall i :: 0 <= i < |body| ==> body[i] != '`'
    ensures RemoveFences(JsonFence + body + Fence) == body
  {
    var s := JsonFence + body + Fence;
    assert s[..7] == JsonFence;
    assert s[7..] == body + Fence;
    BodyThenFence(body);
  }

  lemma {:induction false} BodyThenFence(body: string)
    requires forall i :: 0 <= i < |body| ==> body[i] != '`'
    ensures RemoveFences(body + Fence) == body
    decreases |body|
  {
    if body == [] {
      assert body + Fence == Fence;
      assert Fence[3..] == [];
    } else {
      var s := body + Fence;
      assert s[0] == body[0];
      RemoveFencesKeepsHead(s);
      assert s[1..] == body[1..] + Fence;
      BodyThenFence(body[1..]);
    }
  }

  /** Drops the characters `ws` accepts from the front of s. */
  function TrimStartBy(s: string, ws: char -> bool): (r: string)
    ensures |r| <= |s| && r == s[|s| - |r|..]
    ensures r != [] ==> !ws(r[0])
    ensures forall i :: 0 <= i < |s| - |r| ==> ws(s[i])
  {
    if s != [] && ws(s[0]) then TrimStartBy(s[1..], ws) else s
  }

  /** Drops the characters `ws` accepts from the back of s. */
  function TrimEndBy(s: string, ws: char -> bool): (r: string)
    ensures |r| <= |s| && r == s[..|r|]
    ensures r != [] ==> !ws(r[|r| - 1])
    ensures forall i :: |r| <= i < |s| ==> ws(s[i])
  {
    if s != [] && ws(s[|s| - 1]) then TrimEndBy(s[..|s| - 1], ws) else s
  }

  /** r is s from index a on, less only characters `ws` accepts at either end. */
  predicate TrimmedAt(s: string, r: string, a: int, ws: char -> bool)
  {
    0 <= a <= |s| - |r| && r == s[a..a + |r|]
    && (forall i :: 0 <= i < a ==> ws(s[i]))
    && (forall i :: a + |r| <= i < |s| ==> ws(s[i]))
  }

  /** Trimming the back of what remains after trimming the front leaves a slice of s. */
  lemma PrefixOfSuffix(s: string, t: string, r: string, a: nat, ws: char -> bool)
    requires a <= |s| && t == s[a..] && |r| <= |t| && r == t[..|r|]
    requires forall i :: 0 <= i < a ==> ws(s[i])
    requires forall i :: |r| <= i < |t| ==> ws(t[i])
    ensures TrimmedAt(s, r, a, ws)
  {
    forall k | 0 <= k < |r| ensures r[k] == s[a + k] {
      assert r[k] == t[k];
    }
    assert r == s[a..a + |r|];
    forall i | a + |r| <= i < |s| ensures ws(s[i]) {
      assert s[i] == t[i - a];
    }
  }

  lemma TrimBothIsSlice(s: string, ws: char -> bool)
    ensures TrimmedAt(s, TrimEndBy(TrimStartBy(s, ws), ws), |s| - |TrimStartBy(s, ws)|, ws)
  {
    var t := TrimStartBy(s, ws);
    PrefixOfSuffix(s, t, TrimEndBy(t, ws), |s| - |t|, ws);
  }

  /** String.prototype.trim: drop white space at both ends and nothing else. */
  function Trim(s: string): (r: string)
    ensures r != [] ==> !IsJsWhitespace(r[0]) && !IsJsWhitespace(r[|r| - 1])
    ensures exists a :: TrimmedAt(s, r, a, IsJsWhitespace)
  {
    TrimBothIsSlice(s, IsJsWhitespace);
    TrimEndBy(TrimStartBy(s, IsJsWhitespace), IsJsWhitespace)
  }

  lemma NoFenceSlice(s: string, a: nat, b: nat)
    requires a <= b <= |s| && !HasFence(s)
    ensures !HasFence(s[a..b])
  {
    forall i | FenceAt(s[a..b], i) ensures false {
      assert FenceAt(s, a + i);
    }
  }

  /** Cutting characters off the ends cannot create a "```". */
  lemma TrimmedKeepsNoFence(s: string, r: string, a: int, ws: char -> bool)
    requires TrimmedAt(s, r, a, ws) && !HasFence(s)
    ensures !HasFence(r)
  {
    NoFenceSlice(s, a, a + |r|);
  }

  lemma TrimKeepsNoFence(s: string)
    requires !HasFence(s)
    ensures !HasFence(Trim(s))
  {
    var r := Trim(s);
    var a :| TrimmedAt(s, r, a, IsJsWhitespace);
    TrimmedKeepsNoFence(s, r, a, IsJsWhitespace);
  }

  /** The text handed to JSON.parse: fences removed, then trimmed. */
  function CleanJsonText(text: string): (r: string)
    ensures !HasFence(r)
  {
    RemoveFencesLeavesNoFence(text);
    TrimKeepsNoFence(RemoveFences(text));
    Trim(RemoveFences(text))
  }

  /** Trimming text that is already trimmed changes nothing. */
  lemma TrimIdempotent(s: string)
    ensures Trim(Trim(s)) == Trim(s)
  {
    var r := Trim(s);
    if r != [] {
      assert TrimStartBy(r, IsJsWhitespace) == r;
      assert TrimEndBy(r, IsJsWhitespace) == r;
    }
  }

  /** Cleaning twice is the same as cleaning once. */
  lemma CleanIdempotent(text: string)
    ensures CleanJsonText(CleanJsonText(text)) == CleanJsonText(text)
  {
    var c := CleanJsonText(text);
    RemoveFencesNoOp(c);
    assert c == Trim(RemoveFences(text));
    TrimIdempotent(RemoveFences(text));
  }
}
