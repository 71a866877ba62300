/**
 * The OpenAI API key: the format check applied to a typed key, and the
 * get-or-prompt flow over the editor's persistent credential store.
 */
module ApiKey {
  import opened Wrappers
  import opened Text

  const KeyPrefix := "sk-"

  const RequiredMessage := "OpenAI API key is required"
  const InvalidMessage := "Invalid OpenAI API key"

  /** The declarative reading of `/^sk-\S+$/`: the prefix `sk-`, at least one
      more character, and no whitespace after the prefix. */
  predicate ValidKey(s: string) {
    && |s| > |KeyPrefix|
    && s[..|KeyPrefix|] == KeyPrefix
    && forall i :: |KeyPrefix| <= i < |s| ==> !IsWhitespace(s[i])
  }

  /** The states of a left-to-right matcher for `/^sk-\S+$/`. */
  datatype MatchState = ExpectS | ExpectK | ExpectDash | ExpectNonSpace | InNonSpace | Failed

  function Step(st: MatchState, c: char): MatchState {
    match st
    case ExpectS => if c == 's' then ExpectK else Failed
    case ExpectK => if c == 'k' then ExpectDash else Failed
    case ExpectDash => if c == '-' then ExpectNonSpace else Failed
    case ExpectNonSpace => if IsWhitespace(c) then Failed else InNonSpace
    case InNonSpace => if IsWhitespace(c) then Failed else InNonSpace
    case Failed => Failed
  }

  function Run(st: MatchState, s: string): MatchState
    decreases |s|
  {
    if s == [] then st else Run(Step(st, s[0]), s[1..])
  }

  /** `apiKeyRegExp.test(s)`: the whole input is consumed and the matcher ends
      inside `\S+`. It accepts exactly the valid keys. */
  predicate MatchesKeyRegExp(s: string): (b: bool)
    ensures b <==> ValidKey(s)
  {
    KeyRegExpIsValidKey(s);
    Run(ExpectS, s) == InNonSpace
  }

  lemma {:induction false} RunFailed(s: string)
    ensures Run(Failed, s) == Failed
  {
    if s != [] {
      RunFailed(s[1..]);
    }
  }

  /** Inside `\S+` the matcher accepts exactly the whitespace-free rest. */
  lemma {:induction false} RunNonSpace(s: string)
    ensures Run(InNonSpace, s) == InNonSpace <==> forall i :: 0 <= i < |s| ==> !IsWhitespace(s[i])
  {
    if s != [] {
      RunNonSpace(s[1..]);
      if IsWhitespace(s[0]) {
        RunFailed(s[1..]);
      } else {
        assert forall i :: 1 <= i < |s| ==> s[i] == s[1..][i - 1];
      }
    }
  }

  /** The matcher and the declarative predicate accept the same keys. */
  lemma KeyRegExpIsValidKey(s: string)
    ensures Run(ExpectS, s) == InNonSpace <==> ValidKey(s)
  {
    if |s| < 3 {
      if |s| == 1 {
        assert Run(ExpectS, s) == Run(Step(ExpectS, s[0]), []);
      } else if |s| == 2 {
        assert s[1..][1..] == [];
        assert Run(ExpectS, s) == Run(Step(Step(ExpectS, s[0]), s[1]), []);
      }
    } else {
      assert Run(ExpectS, s) == Run(Step(Step(Step(ExpectS, s[0]), s[1]), s[2]), s[3..]) by {
        assert Run(ExpectS, s) == Run(Step(ExpectS, s[0]), s[1..]);
        assert s[1..][1..] == s[2..];
        assert Run(Step(ExpectS, s[0]), s[1..]) == Run(Step(Step(ExpectS, s[0]), s[1]), s[2..]);
        assert s[2..][1..] == s[3..];
      }
      if s[..3] == KeyPrefix {
        var rest := s[3..];
        if rest == [] {
        } else {
          RunNonSpace(rest[1..]);
          if IsWhitespace(rest[0]) {
            RunFailed(rest[1..]);
          }
          assert forall i :: 3 <= i < |s| ==> s[i] == rest[i - 3];
          assert forall i :: 1 <= i < |rest| ==> rest[i] == rest[1..][i - 1];
        }
      } else {
        RunFailed(s[3..]);
      }
    }
  }

  /** What `setApiKey` makes of the input box's answer. */
  datatype KeyVerdict = Accepted(key: string) | Required | Invalid {
    /** The error shown to the user, if any. */
    function Message(): Option<string> {
      match this
      case Accepted(_) => None
      case Required => Some(RequiredMessage)
      case Invalid => Some(InvalidMessage)
    }
  }

  /** The two checks of `setApiKey`: a dismissed or empty answer is "required",
      an answer failing the pattern is "invalid", anything else is accepted as
      typed. */
  function CheckInput(input: Option<string>): (v: KeyVerdict)
    ensures v.Required? <==> input == None || input == Some([])
    ensures v.Accepted? <==> input.Some? && ValidKey(input.value)
    ensures v.Accepted? ==> v.key == input.value
    ensures v.Message() == None <==> v.Accepted?
    ensures v.Message() == Some(RequiredMessage) <==> input == None || input == Some([])
    ensures v.Message() == Some(InvalidMessage) <==> input.Some? && input.value != [] && !ValidKey(input.value)
  {
    if input == None || input.value == [] then Required
    else if !MatchesKeyRegExp(input.value) then Invalid else Accepted(input.value)
  }

  /** A dismissed box and an empty answer are both "required". */
  lemma RejectsMissingInput()
    ensures CheckInput(None) == Required && CheckInput(Some("")) == Required
  {
  }

  /** `sk-` alone and `sk-` followed by a space are "invalid". */
  lemma RejectsBarePrefix()
    ensures CheckInput(Some("sk-")) == Invalid
    ensures CheckInput(Some("sk- x")) == Invalid
    ensures CheckInput(Some("sk- ")) == Invalid
  {
  }

  /** A key without the `sk-` prefix is "invalid". */
  lemma RejectsForeignPrefix()
    ensures CheckInput(Some("abc")) == Invalid
    ensures CheckInput(Some("abc-123")) == Invalid
  {
    assert "abc"[..3][0] == 'a';
    assert "abc-123"[..3][0] == 'a';
  }

  /** A well-formed key is accepted as typed. */
  lemma AcceptsWellFormedKey()
    ensures CheckInput(Some("sk-abc123")) == Accepted("sk-abc123")
  {
    var k := "sk-abc123";
    assert k[..3] == KeyPrefix;
    forall i | 3 <= i < |k| ensures !IsWhitespace(k[i]) {
      assert k[i] in "abc123";
    }
  }

  /** The editor's global state, restricted to its `apiKey` entry. */
  class KeyStore {
    var apiKey: Option<string>

    constructor (initial: Option<string>)
      ensures apiKey == initial
    {
      apiKey := initial;
    }

    /** `setApiKey`: asks for a key (the answer is `input`) and stores it only
        when it is accepted. */
    method SetApiKey(input: Option<string>) returns (key: Option<string>, verdict: KeyVerdict)
      modifies this
      ensures verdict == CheckInput(input)
      ensures key == if verdict.Accepted? then Some(verdict.key) else None
      ensures apiKey == if verdict.Accepted? then key else old(apiKey)
    {
      verdict := CheckInput(input);
      if verdict.Accepted? {
        apiKey := Some(verdict.key);
        key := Some(verdict.key);
      } else {
        key := None;
      }
    }

    /** `getApiKey`: a stored non-empty key is returned as it is, with no
        prompt and no check; otherwise the user is asked. `prompted` is the
        verdict on the answer when there was a prompt. */
    method GetApiKey(input: Option<string>) returns (key: Option<string>, prompted: Option<KeyVerdict>)
      modifies this
      ensures old(apiKey).Some? && old(apiKey).value != [] ==>
        key == old(apiKey) && prompted == None && apiKey == old(apiKey)
      ensures !(old(apiKey).Some? && old(apiKey).value != []) ==>
        && prompted == Some(CheckInput(input))
        && (key.Some? <==> CheckInput(input).Accepted?)
        && (key.Some? ==> key == input && ValidKey(key.value))
        && apiKey == if key.Some? then key else old(apiKey)
      ensures key.Some? ==> key.value != [] && apiKey == key
    {
      key := apiKey;
      if key == None || key.value == [] {
        var verdict;
        key, verdict := SetApiKey(input);
        prompted := Some(verdict);
      } else {
        prompted := None;
      }
    }
  }
}
