/**
 * vue/src/utils/errors.ts: `cleanGraphQLError` strips one leading "[GraphQL]"
 * tag (matched with `/^\[GraphQL\]\s*\/i`) and trims; `getErrorMessage`
 * dispatches on the kind of value it is given.
 */
module Errors {
  import opened Js

  const DefaultErrorText: string := "An unexpected error occurred"

  const GraphQLTag: string := "[GraphQL]"

  /**
   * The case folding of a non-unicode `/i` regular expression on the tag's
   * characters: only ASCII letters fold, since a non-ASCII character never
   * canonicalises to an ASCII one.
   */
  function AsciiUpper(c: char): char {
    if 'a' <= c <= 'z' then (c as int - 32) as char else c
  }

  /** `/^\[GraphQL\]/i` matches at the start of `m`: each of the tag's nine characters, up to ASCII case. */
  predicate HasGraphQLPrefix(m: string) {
    && |m| >= |GraphQLTag|
    && AsciiUpper(m[0]) == '[' && AsciiUpper(m[1]) == 'G' && AsciiUpper(m[2]) == 'R'
    && AsciiUpper(m[3]) == 'A' && AsciiUpper(m[4]) == 'P' && AsciiUpper(m[5]) == 'H'
    && AsciiUpper(m[6]) == 'Q' && AsciiUpper(m[7]) == 'L' && AsciiUpper(m[8]) == ']'
  }

  /**
   * `m.replace(/^\[GraphQL\]\s*\/i, '')`: the tag and the whitespace after it, once, at position 0 only.
   * What remains is `m` itself, or, when the tag matched, a suffix of `m` where everything removed after the tag is
   * whitespace and the greedy `\s*` leaves no whitespace at the front of the result.
   */
  function StripGraphQLPrefix(m: string): (r: string)
    ensures HasGraphQLPrefix(m) ==>
      && |m| - |r| >= |GraphQLTag| && r == m[|m| - |r|..]
      && (forall k :: |GraphQLTag| <= k < |m| - |r| ==> IsSpace(m[k]))
      && (r == [] || !IsSpace(r[0]))
    ensures !HasGraphQLPrefix(m) ==> r == m
  {
    if HasGraphQLPrefix(m) then StripTail(m) else m
  }

  /** The `\s*` part of the replace, after a matched tag: the whitespace run after position 9 goes. */
  function StripTail(m: string): (r: string)
    requires |m| >= |GraphQLTag|
    ensures |m| - |r| >= |GraphQLTag| && r == m[|m| - |r|..]
    ensures forall k :: |GraphQLTag| <= k < |m| - |r| ==> IsSpace(m[k])
    ensures r == [] || !IsSpace(r[0])
  {
    var t := m[|GraphQLTag|..];
    var r := TrimStart(t);
    StripStep(m, t, r);
    r
  }

  /** The tail `t` of `m` after the tag, and a suffix `r` of `t` after a whitespace run, seen in `m`'s positions. */
  lemma StripStep(m: string, t: string, r: string)
    requires |m| >= |GraphQLTag| && t == m[|GraphQLTag|..]
    requires |r| <= |t| && r == t[|t| - |r|..]
    requires forall k :: 0 <= k < |t| - |r| ==> IsSpace(t[k])
    ensures r == m[|m| - |r|..]
    ensures forall k :: |GraphQLTag| <= k < |m| - |r| ==> IsSpace(m[k])
  {
    forall k | |GraphQLTag| <= k < |m| - |r|
      ensures IsSpace(m[k])
    {
      assert m[k] == t[k - |GraphQLTag|];
    }
  }

  /**
   * `cleanGraphQLError(message)`: the default text for an empty message;
   * otherwise the message after the tag (when it starts with one), trimmed.
   */
  function CleanGraphQLError(message: string): (r: string)
    ensures message == "" ==> r == DefaultErrorText
    ensures message != "" ==> Trimmed(r)
    ensures message != "" && !HasGraphQLPrefix(message) ==> r == Trim(message)
    ensures message != "" && HasGraphQLPrefix(message) ==> r == Trim(message[|GraphQLTag|..])
  {
    if message == "" then DefaultErrorText
    else if HasGraphQLPrefix(message) then
      TrimAfterTrimStart(message[|GraphQLTag|..]);
      Trim(StripGraphQLPrefix(message))
    else Trim(StripGraphQLPrefix(message))
  }

  /** A message that already has no tag and no edge whitespace comes back unchanged. */
  lemma CleanKeepsCleanMessage(message: string)
    requires message != "" && !HasGraphQLPrefix(message) && Trimmed(message)
    ensures CleanGraphQLError(message) == message
  {
    TrimTrimmed(message);
  }

  /** A tagged message: the tag, one space, then an already clean text `t`. */
  lemma CleanTagSpace(t: string)
    requires Trimmed(t)
    ensures CleanGraphQLError(GraphQLTag + " " + t) == t
  {
    var m := GraphQLTag + " " + t;
    assert HasGraphQLPrefix(m) by {
      assert m[..|GraphQLTag|] == GraphQLTag;
    }
    assert m[|GraphQLTag|..] == [' '] + t;
    TrimLeadingSpace(' ', t);
    TrimTrimmed(t);
  }

  /**
   * Only one tag is removed, so cleaning is not idempotent:
   * "[GraphQL] [GraphQL] x" cleans to "[GraphQL] x", which cleans to "x".
   */
  lemma CleanRemovesOneTag(t: string)
    requires t != "" && Trimmed(t)
    ensures CleanGraphQLError(GraphQLTag + " " + (GraphQLTag + " " + t)) == GraphQLTag + " " + t
    ensures CleanGraphQLError(GraphQLTag + " " + t) == t
  {
    var once := GraphQLTag + " " + t;
    assert once[0] == '[' && once[|once| - 1] == t[|t| - 1];
    CleanTagSpace(once);
    CleanTagSpace(t);
  }

  /** The bare tag cleans to the empty string, not to the default text. */
  lemma CleanBareTag()
    ensures CleanGraphQLError("[GraphQL]") == ""
  {
    var m := "[GraphQL]";
    assert HasGraphQLPrefix(m);
    assert m[|GraphQLTag|..] == [];
    TrimTrimmed([]);
  }

  /** A tag after leading whitespace is not at position 0 and stays: "  [GraphQL] x" cleans to "[GraphQL] x". */
  lemma {:induction false} CleanTagOnlyAtStart(ws: string, t: string)
    requires ws != "" && forall k :: 0 <= k < |ws| ==> IsSpace(ws[k])
    requires t != "" && Trimmed(t)
    ensures CleanGraphQLError(ws + (GraphQLTag + " " + t)) == GraphQLTag + " " + t
    decreases |ws|
  {
    var tagged := GraphQLTag + " " + t;
    var m := ws + tagged;
    assert !HasGraphQLPrefix(m) by {
      assert m[0] == ws[0];
      assert IsSpace(m[0]) && !IsSpace(AsciiUpper(GraphQLTag[0]));
    }
    assert Trimmed(tagged) by {
      assert tagged[0] == '[' && tagged[|tagged| - 1] == t[|t| - 1];
    }
    TrimSpacesBefore(ws, tagged);
    TrimTrimmed(tagged);
  }

  /** The tag is matched without regard to ASCII case: any spelling `g` of it, such as "[graphql]", followed by " x" cleans to "x". */
  lemma CleanTagAnyCase(g: string, t: string)
    requires |g| == |GraphQLTag| && forall k :: 0 <= k < |g| ==> AsciiUpper(g[k]) == AsciiUpper(GraphQLTag[k])
    requires Trimmed(t)
    ensures CleanGraphQLError(g + " " + t) == t
  {
    var m := g + " " + t;
    assert HasGraphQLPrefix(m) by {
      forall k | 0 <= k < |GraphQLTag|
        ensures AsciiUpper(m[k]) == AsciiUpper(GraphQLTag[k])
      {
        assert m[k] == g[k];
      }
    }
    assert m[|GraphQLTag|..] == [' '] + t;
    TrimLeadingSpace(' ', t);
    TrimTrimmed(t);
  }

  const MessageProperty: string := "message"

  /**
   * `getErrorMessage(error)`: the default text for a falsy value, the cleaned
   * string for a string, the cleaned `message` of an Error, the cleaned
   * `String(message)` of an object with a `message` property, and the default
   * text for anything else.
   */
  function GetErrorMessage(error: JsValue): (r: string)
    ensures !Truthy(error) ==> r == DefaultErrorText
    ensures error.Str? ==> r == CleanGraphQLError(error.s)
    ensures error.ErrorObject? ==> r == CleanGraphQLError(error.message)
    ensures error.Object? && MessageProperty in error.props
            ==> r == CleanGraphQLError(ToJsString(error.props[MessageProperty]))
    ensures error.Bool? || error.Number? || (error.Object? && MessageProperty !in error.props)
            ==> r == DefaultErrorText
  {
    if !Truthy(error) then DefaultErrorText
    else
      match error
      case Str(s) => CleanGraphQLError(s)
      case ErrorObject(m) => CleanGraphQLError(m)
      case Object(props) =>
        if MessageProperty in props then CleanGraphQLError(ToJsString(props[MessageProperty]))
        else DefaultErrorText
      case _ => DefaultErrorText
  }

  /** Whatever it is given, the text shown never has whitespace at either end. */
  lemma GetErrorMessageTrimmed(error: JsValue)
    ensures Trimmed(GetErrorMessage(error))
  {
  }

  /** An Error, and an object whose `message` is that string, read the same as the bare string. */
  lemma GetErrorMessageKindsAgree(m: string)
    ensures GetErrorMessage(ErrorObject(m)) == GetErrorMessage(Str(m))
    ensures GetErrorMessage(Object(map[MessageProperty := Str(m)])) == GetErrorMessage(Str(m))
  {
  }

  /** An empty Error message still gives the default text. */
  lemma GetErrorMessageEmptyError()
    ensures GetErrorMessage(ErrorObject("")) == DefaultErrorText
  {
  }
}
