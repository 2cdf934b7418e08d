/** The e-mail helper (utils/emailConfig.js): the plain-text version of an HTML body, the
    recipient derived from the address, and `sendEmail`, which posts the message to the mail
    provider's API and retries a bounded number of times. The provider is an oracle `send`: the
    response to the message at each attempt. The waits between attempts are returned, not
    slept. */
module EmailConfig {
  import opened Common

  /** The sender used when `EMAIL_USER` is not configured. */
  const DEFAULT_SENDER := "dupontdjeague@gmail.com"

  /** The display name of the sender and of the reply-to address. */
  const SENDER_NAME := "RONY HAIR 237"

  /** The number of attempts when the caller gives none. */
  const DEFAULT_RETRIES := 3

  // ---------------------------------------------------------------------------
  // Plain text: html.replace(/<[^>]+>/g, '') ... .trim()
  // ---------------------------------------------------------------------------

  /** No tag is left: after a '<', the first later '>' is the very next character, so no
      `<x...>` with at least one character between the brackets remains. */
  predicate NoTag(s: string) {
    forall i, j :: 0 <= i < j < |s| && s[i] == '<' && s[j] == '>' ==> s[i + 1] == '>'
  }

  /** `replace(/<[^>]+>/g, '')`: scanning from the left, a '<' followed by at least one
      character other than '>' and then a '>' is removed together with them; a '<' that opens
      no such tag stays. */
  function StripTags(s: string): (r: string)
    ensures |r| <= |s|
    ensures forall c :: c in r ==> c in s
    ensures s != [] && s[0] != '<' ==> r != [] && r[0] == s[0]
    ensures NoTag(r)
    decreases |s|
  {
    if s == [] then []
    else if s[0] == '<' && |s| >= 2 && s[1] != '>' && '>' in s[2..] then
      var j := FindFirst(s[2..], (c: char) => c == '>').value + 2;
      var r := StripTags(s[j + 1..]);
      assert forall c :: c in r ==> c in s[j + 1..];
      r
    else
      var rest := StripTags(s[1..]);
      var r := [s[0]] + rest;
      assert forall c :: c in rest ==> c in s[1..];
      forall i, j | 0 <= i < j < |r| && r[i] == '<' && r[j] == '>'
        ensures r[i + 1] == '>'
      {
        if i > 0 {
          assert rest[i - 1] == '<' && rest[j - 1] == '>';
        } else if |s| >= 2 && s[1] != '>' {
          assert false;
        }
      }
      r
  }

  /** A text without tags goes through unchanged, so stripping twice strips nothing more. */
  lemma {:induction false} StripTagsKeepsTagless(s: string)
    requires NoTag(s)
    ensures StripTags(s) == s
    decreases |s|
  {
    if s != [] {
      if s[0] == '<' && |s| >= 2 && s[1] != '>' && '>' in s[2..] {
        assert false;
      }
      assert NoTag(s[1..]) by {
        forall i, j | 0 <= i < j < |s| - 1 && s[1..][i] == '<' && s[1..][j] == '>'
          ensures s[1..][i + 1] == '>'
        {
          assert s[i + 1] == '<' && s[j + 1] == '>';
        }
      }
      StripTagsKeepsTagless(s[1..]);
    }
  }

  lemma StripTagsIdempotent(s: string)
    ensures StripTags(StripTags(s)) == StripTags(s)
  {
    StripTagsKeepsTagless(StripTags(s));
  }

  /** `pat` occurs at the start of `s`, ignoring the case of ASCII letters (the `i` flag). */
  predicate StartsWithCI(s: string, pat: string) {
    |s| >= |pat| && Lower(s[..|pat|]) == pat
  }

  /** `replace(/pat/gi, rep)` for a lower-case `pat`: from the left, every occurrence in any
      case is replaced, and the scan resumes after it. */
  function ReplaceCI(s: string, pat: string, rep: string): (r: string)
    requires pat != []
    ensures (!exists i :: 0 <= i < |s| && StartsWithCI(s[i..], pat)) ==> r == s
    decreases |s|
  {
    if |s| < |pat| then s
    else if StartsWithCI(s, pat) then
      assert s[0..] == s;
      rep + ReplaceCI(s[|pat|..], pat, rep)
    else
      var r := [s[0]] + ReplaceCI(s[1..], pat, rep);
      assert !(exists i :: 0 <= i < |s| && StartsWithCI(s[i..], pat)) ==>
        !exists i :: 0 <= i < |s[1..]| && StartsWithCI(s[1..][i..], pat) by {
        if exists i :: 0 <= i < |s[1..]| && StartsWithCI(s[1..][i..], pat) {
          var i :| 0 <= i < |s[1..]| && StartsWithCI(s[1..][i..], pat);
          assert s[1..][i..] == s[i + 1..];
        }
      }
      assert s == [s[0]] + s[1..];
      r
  }

  /** `pat` occurs somewhere in `s`, in any case. */
  predicate OccursCI(s: string, pat: string) {
    exists i :: 0 <= i < |s| && StartsWithCI(s[i..], pat)
  }

  /** No character of `rep` lowers to a character of `pat`. */
  predicate ForeignTo(rep: string, pat: string) {
    forall a :: 0 <= a < |rep| ==> LowerChar(rep[a]) !in pat
  }

  /** The characters of an occurrence lower to the pattern's, one by one. */
  lemma MatchChars(s: string, pat: string, k: nat)
    requires StartsWithCI(s, pat) && k < |pat|
    ensures LowerChar(s[k]) == pat[k]
  {
    assert Lower(s[..|pat|])[k] == LowerChar(s[k]);
  }

  /** One step of the scan past a head character that starts no occurrence: it is kept. */
  lemma ReplaceCIKeeps(s: string, pat: string, rep: string)
    requires pat != [] && |s| >= |pat| && !StartsWithCI(s, pat)
    ensures ReplaceCI(s, pat, rep) == [s[0]] + ReplaceCI(s[1..], pat, rep)
  {
  }

  /** One step of the scan over an occurrence at the head: it becomes `rep`. */
  lemma ReplaceCIReplaces(s: string, pat: string, rep: string)
    requires pat != [] && |s| >= |pat| && StartsWithCI(s, pat)
    ensures ReplaceCI(s, pat, rep) == rep + ReplaceCI(s[|pat|..], pat, rep)
  {
  }

  /** When a non-empty replacement is foreign to the pattern, a prefix of the result whose
      characters all lower into the pattern was copied from the input unchanged. */
  lemma {:induction false} KeptPrefix(t: string, pat: string, rep: string, q: string)
    requires pat != [] && rep != [] && ForeignTo(rep, pat)
    requires |q| <= |ReplaceCI(t, pat, rep)|
    requires forall k :: 0 <= k < |q| ==> q[k] in pat && LowerChar(ReplaceCI(t, pat, rep)[k]) == q[k]
    ensures |q| <= |t| && forall k :: 0 <= k < |q| ==> LowerChar(t[k]) == q[k]
    decreases |t|
  {
    var r := ReplaceCI(t, pat, rep);
    if |t| < |pat| {
    } else if StartsWithCI(t, pat) {
      ReplaceCIReplaces(t, pat, rep);
      assert r[0] == rep[0] && LowerChar(r[0]) !in pat;
    } else if q != [] {
      var r' := ReplaceCI(t[1..], pat, rep);
      ReplaceCIKeeps(t, pat, rep);
      forall k | 0 <= k < |q| - 1
        ensures q[1..][k] in pat && LowerChar(r'[k]) == q[1..][k]
      {
        assert r'[k] == r[k + 1];
      }
      KeptPrefix(t[1..], pat, rep, q[1..]);
      forall k | 0 <= k < |q|
        ensures LowerChar(t[k]) == q[k]
      {
        if k > 0 {
          assert t[k] == t[1..][k - 1] && q[k] == q[1..][k - 1];
        }
      }
    }
  }

  /** A non-empty replacement sharing no character with the pattern leaves no occurrence of it,
      in any case: `&nbsp;` into a space removes every `&nbsp;`. */
  lemma {:induction false} ReplaceCIRemovesAll(s: string, pat: string, rep: string)
    requires pat != [] && rep != [] && ForeignTo(rep, pat)
    ensures !OccursCI(ReplaceCI(s, pat, rep), pat)
    decreases |s|
  {
    var r := ReplaceCI(s, pat, rep);
    if |s| < |pat| {
      assert r == s;
      forall i | 0 <= i < |r| ensures !StartsWithCI(r[i..], pat) {}
    } else if StartsWithCI(s, pat) {
      ReplaceCIRemovesAll(s[|pat|..], pat, rep);
      NoMatchAfterReplacement(s, pat, rep);
    } else {
      ReplaceCIRemovesAll(s[1..], pat, rep);
      NoMatchAfterKept(s, pat, rep);
    }
  }

  /** An occurrence cannot start inside the replacement, nor after it once the rest is clean. */
  lemma NoMatchAfterReplacement(s: string, pat: string, rep: string)
    requires pat != [] && rep != [] && ForeignTo(rep, pat)
    requires |s| >= |pat| && StartsWithCI(s, pat)
    requires !OccursCI(ReplaceCI(s[|pat|..], pat, rep), pat)
    ensures !OccursCI(ReplaceCI(s, pat, rep), pat)
  {
    ReplaceCIReplaces(s, pat, rep);
    NoMatchInForeignPrefix(rep, ReplaceCI(s[|pat|..], pat, rep), pat);
  }

  /** Putting characters foreign to the pattern before a text without occurrences creates none. */
  lemma NoMatchInForeignPrefix(rep: string, rest: string, pat: string)
    requires pat != [] && ForeignTo(rep, pat) && !OccursCI(rest, pat)
    ensures !OccursCI(rep + rest, pat)
  {
    var r := rep + rest;
    forall i | 0 <= i < |r|
      ensures !StartsWithCI(r[i..], pat)
    {
      if i < |rep| {
        assert r[i..][0] == rep[i] && LowerChar(rep[i]) !in pat;
        if |pat| <= |r[i..]| {
          NoMatchAt(r[i..], pat, 0);
        }
      } else {
        var j := i - |rep|;
        assert r[i..] == rest[j..];
        assert !StartsWithCI(rest[j..], pat);
      }
    }
  }

  /** A kept first character cannot start an occurrence: it would be one in the input too. */
  lemma NoMatchAfterKept(s: string, pat: string, rep: string)
    requires pat != [] && rep != [] && ForeignTo(rep, pat)
    requires |s| >= |pat| && !StartsWithCI(s, pat)
    requires !OccursCI(ReplaceCI(s[1..], pat, rep), pat)
    ensures !OccursCI(ReplaceCI(s, pat, rep), pat)
  {
    KeptMatchIsInput(s, pat, rep);
    ReplaceCIKeeps(s, pat, rep);
    NoMatchAfterHead(s[0], ReplaceCI(s[1..], pat, rep), pat);
  }

  /** A text without occurrences keeps none when a character that starts none is put first. */
  lemma NoMatchAfterHead(c: char, rest: string, pat: string)
    requires !OccursCI(rest, pat) && !StartsWithCI([c] + rest, pat)
    ensures !OccursCI([c] + rest, pat)
  {
    var r := [c] + rest;
    forall i | 0 <= i < |r|
      ensures !StartsWithCI(r[i..], pat)
    {
      if i == 0 {
        assert r[0..] == r;
      } else {
        var j := i - 1;
        assert r[i..] == rest[j..];
        assert !StartsWithCI(rest[j..], pat);
      }
    }
  }

  /** A match at the head of the result, when the input's head is no match, would have been
      copied from the input: so there is none. */
  lemma KeptMatchIsInput(s: string, pat: string, rep: string)
    requires pat != [] && rep != [] && ForeignTo(rep, pat)
    requires |s| >= |pat| && !StartsWithCI(s, pat)
    ensures !StartsWithCI(ReplaceCI(s, pat, rep), pat)
  {
    var r := ReplaceCI(s, pat, rep);
    var r' := ReplaceCI(s[1..], pat, rep);
    ReplaceCIKeeps(s, pat, rep);
    if StartsWithCI(r, pat) {
      var q := pat[1..];
      forall k | 0 <= k < |q|
        ensures q[k] in pat && LowerChar(r'[k]) == q[k]
      {
        MatchChars(r, pat, k + 1);
        assert r'[k] == r[k + 1];
      }
      MatchChars(r, pat, 0);
      KeptPrefix(s[1..], pat, rep, q);
    }
  }

  /** The `&nbsp;` step: a space shares no character with the entity, so none is left. */
  lemma NbspAllReplaced(s: string)
    ensures !OccursCI(ReplaceCI(s, "&nbsp;", " "), "&nbsp;")
  {
    ReplaceCIRemovesAll(s, "&nbsp;", " ");
  }

  /** The two entity replacements, `&nbsp;` first and `&amp;` second. */
  function Entities(s: string): string {
    ReplaceCI(ReplaceCI(s, "&nbsp;", " "), "&amp;", "&")
  }

  /** Every whitespace character is a plain space and no two are adjacent. */
  predicate Collapsed(s: string) {
    forall i :: 0 <= i < |s| && IsSpace(s[i]) ==> s[i] == ' ' && (i + 1 < |s| ==> !IsSpace(s[i + 1]))
  }

  /** The text after its leading whitespace. */
  function DropSpaces(s: string): (r: string)
    ensures |r| <= |s|
    ensures r == [] || !IsSpace(r[0])
  {
    if s != [] && IsSpace(s[0]) then DropSpaces(s[1..]) else s
  }

  /** `replace(/\s+/g, ' ')`: every run of whitespace becomes one space. */
  function Collapse(s: string): (r: string)
    ensures |r| <= |s|
    ensures r == [] <==> s == []
    ensures s != [] && !IsSpace(s[0]) ==> r[0] == s[0]
    ensures Collapsed(r)
    decreases |s|
  {
    if s == [] then []
    else if IsSpace(s[0]) then
      var t := DropSpaces(s[1..]);
      var r := [' '] + Collapse(t);
      assert IsSpace(r[0]);
      r
    else
      [s[0]] + Collapse(s[1..])
  }

  /** Any piece of a collapsed text is collapsed. */
  lemma CollapsedSlice(s: string, a: nat, b: nat)
    requires Collapsed(s) && a <= b <= |s|
    ensures Collapsed(s[a..b])
  {
    forall i | 0 <= i < b - a && IsSpace(s[a..b][i])
      ensures s[a..b][i] == ' ' && (i + 1 < b - a ==> !IsSpace(s[a..b][i + 1]))
    {
      assert s[a..b][i] == s[a + i];
      if i + 1 < b - a {
        assert s[a..b][i + 1] == s[a + i + 1];
      }
    }
  }

  /** The `textContent` sent with the HTML: tags removed, the two entities replaced, whitespace
      collapsed, then trimmed. */
  function PlainText(html: string): (r: string)
    ensures Collapsed(r)
    ensures r == [] || (r[0] != ' ' && r[|r| - 1] != ' ')
  {
    var c := Collapse(Entities(StripTags(html)));
    CollapsedSlice(c, |c| - |TrimStart(c)|, |c|);
    CollapsedSlice(TrimStart(c), 0, |Trim(c)|);
    Trim(c)
  }

  /** A text without whitespace goes through the collapse unchanged. */
  lemma {:induction false} CollapseKeepsWordless(s: string)
    requires forall i :: 0 <= i < |s| ==> !IsSpace(s[i])
    ensures Collapse(s) == s
    decreases |s|
  {
    if s != [] {
      CollapseKeepsWordless(s[1..]);
    }
  }

  /** One mismatching character rules an occurrence out. */
  lemma NoMatchAt(s: string, pat: string, k: nat)
    requires k < |pat| <= |s| && LowerChar(s[k]) != pat[k]
    ensures !StartsWithCI(s, pat)
  {
    assert Lower(s[..|pat|])[k] == LowerChar(s[k]);
  }

  /** `&nbsp;` is replaced before `&amp;`, so an escaped `&amp;nbsp;` comes out as the literal
      text `&nbsp;`; the other order would have turned it into a space. */
  lemma EscapedNbspStaysLiteral()
    ensures PlainText("&amp;nbsp;") == "&nbsp;"
    ensures ReplaceCI(ReplaceCI("&amp;nbsp;", "&amp;", "&"), "&nbsp;", " ") == " "
  {
    var s := "&amp;nbsp;";
    assert NoTag(s) by {
      assert forall i :: 0 <= i < |s| ==> s[i] != '<';
    }
    StripTagsKeepsTagless(s);
    EscapedNbspPass();
    EscapedAmpPass();
    var t := "&nbsp;";
    NbspText();
    CollapseKeepsWordless(t);
    TrimUnchanged(t);
    NbspPass();
  }

  /** The first pass finds no `&nbsp;` in `&amp;nbsp;`. */
  lemma EscapedNbspPass()
    ensures ReplaceCI("&amp;nbsp;", "&nbsp;", " ") == "&amp;nbsp;"
  {
    var s := "&amp;nbsp;";
    forall i | 0 <= i < |s|
      ensures !StartsWithCI(s[i..], "&nbsp;")
    {
      if i == 0 {
        NoMatchAt(s[i..], "&nbsp;", 1);
      } else if i < 5 {
        NoMatchAt(s[i..], "&nbsp;", 0);
      }
    }
  }

  /** The second pass unescapes the `&amp;`. */
  lemma EscapedAmpPass()
    ensures ReplaceCI("&amp;nbsp;", "&amp;", "&") == "&nbsp;"
  {
    var s := "&amp;nbsp;";
    AmpText();
    assert s[..5] == "&amp;" && s[5..] == "nbsp;";
    ReplaceCIReplaces(s, "&amp;", "&");
    NoMatchAt("nbsp;", "&amp;", 0);
    ReplaceCIKeeps("nbsp;", "&amp;", "&");
    assert "nbsp;"[1..] == "bsp;";
    assert ReplaceCI("bsp;", "&amp;", "&") == "bsp;";
  }

  lemma NbspPass()
    ensures ReplaceCI("&nbsp;", "&nbsp;", " ") == " "
  {
    NbspText();
    assert "&nbsp;"[..6] == "&nbsp;";
  }

  lemma AmpText()
    ensures Lower("&amp;") == "&amp;"
  {
    var t := "&amp;";
    assert t == ['&', 'a', 'm', 'p', ';'];
    assert Lower(t)[0] == '&' && Lower(t)[1] == 'a' && Lower(t)[2] == 'm';
    assert Lower(t)[3] == 'p' && Lower(t)[4] == ';';
  }

  lemma NbspText()
    ensures forall i :: 0 <= i < 6 ==> !IsSpace("&nbsp;"[i])
    ensures Lower("&nbsp;") == "&nbsp;"
  {
    var t := "&nbsp;";
    assert t == ['&', 'n', 'b', 's', 'p', ';'];
    assert Lower(t)[0] == '&' && Lower(t)[1] == 'n' && Lower(t)[2] == 'b';
    assert Lower(t)[3] == 's' && Lower(t)[4] == 'p' && Lower(t)[5] == ';';
  }

  // ---------------------------------------------------------------------------
  // The message and sendEmail
  // ---------------------------------------------------------------------------

  /** The `to` entry of the message. */
  datatype Recipient = Recipient(email: string, name: string)

  /** The text before the first '@' (`to.split('@')[0]`), the whole text when it has none. */
  function BeforeAt(s: string): (r: string)
    ensures |r| <= |s| && r == s[..|r|]
    ensures '@' !in r
    ensures |r| < |s| ==> s[|r|] == '@'
  {
    if s == [] || s[0] == '@' then [] else [s[0]] + BeforeAt(s[1..])
  }

  /** The recipient: the address trimmed then lower-cased, and as its name the part of the raw
      address before the first '@'. */
  function RecipientOf(to: string): (r: Recipient)
    ensures r.email == Lower(Trim(to))
    ensures r.name == BeforeAt(to)
  {
    Recipient(Lower(Trim(to)), BeforeAt(to))
  }

  /** The name is cut from the untrimmed address: leading spaces stay in it. */
  lemma RecipientNameUntrimmed()
    ensures RecipientOf(" a@b").name == " a"
  {
    var s := " a@b";
    assert s[1..] == "a@b" && "a@b"[1..] == "@b";
    assert BeforeAt("@b") == [];
    assert BeforeAt("a@b") == ['a'] + BeforeAt("@b");
    assert BeforeAt(s) == [' '] + BeforeAt("a@b");
  }

  /** What is posted to the provider. The sender is also the reply-to address. */
  datatype Message = Message(sender: string, to: Recipient, subject: string, html: string,
                             text: string)

  function MessageOf(sender: string, to: string, subject: string, html: string): (m: Message)
    ensures m.to == RecipientOf(to) && m.text == PlainText(html)
    ensures m.sender == sender && m.subject == subject && m.html == html
  {
    Message(sender, RecipientOf(to), subject, html, PlainText(html))
  }

  /** The configured sender, `process.env.EMAIL_USER || DEFAULT_SENDER`. */
  function SenderOf(emailUser: Option<string>): (s: string)
    ensures s != ""
    ensures Truthy(emailUser) ==> s == emailUser.value
  {
    OrString(emailUser, DEFAULT_SENDER)
  }

  /** `checkBrevoConfig`: the key is present. The check of the sender can never fail, since the
      sender always has its default. */
  function CheckConfig(apiKey: Option<string>, emailUser: Option<string>): (ok: bool)
    ensures ok <==> Truthy(apiKey)
  {
    Truthy(apiKey) && SenderOf(emailUser) != ""
  }

  /** The provider's answer to one attempt: a delivery with its message id, an HTTP error
      status, no response at all, or an error before sending. */
  datatype Response = Delivered(messageId: string) | HttpError(status: int) | NoResponse
                    | RequestError

  /** The answers that end the attempts at once: a success, 401 (bad key) and 400 (bad
      parameters); any other failure is retried. */
  predicate Final(r: Response) {
    r.Delivered? || r == HttpError(401) || r == HttpError(400)
  }

  /** How `sendEmail` ends: it resolves with the message id, or throws for one of the reasons
      below, or resolves with nothing when the number of attempts is below 1. */
  datatype Failure = MissingKey | InvalidParams | InvalidKey | Rejected | Exhausted
  datatype Outcome = Sent(messageId: string) | Thrown(failure: Failure) | Undefined

  /** The waits after the first `n` failed attempts: 1000 ms times the attempt number, which
      grows linearly. */
  function Waits(n: nat): seq<int> {
    if n == 0 then [] else Waits(n - 1) + [1000 * n]
  }

  /** The i-th wait (from 0) lasts 1000 ms times i + 1, and there is one per failed attempt. */
  lemma {:induction false} WaitsLinear(n: nat)
    ensures |Waits(n)| == n
    ensures forall i :: 0 <= i < n ==> Waits(n)[i] == 1000 * (i + 1)
  {
    if n > 0 {
      WaitsLinear(n - 1);
    }
  }

  /** The number of attempts, `retries = 3` when not given. */
  function Limit(retries: Option<int>): int {
    Given(retries, DEFAULT_RETRIES)
  }

  /** How the last attempt ends the call, given its answer: a delivery resolves with its id,
      401 and 400 throw at once, and any other failure throws only on the last attempt. */
  predicate Settles(r: Response, outcome: Outcome, attempt: int, limit: int) {
    if r.Delivered? then outcome == Sent(r.messageId)
    else if r == HttpError(401) then outcome == Thrown(InvalidKey)
    else if r == HttpError(400) then outcome == Thrown(Rejected)
    else outcome == Thrown(Exhausted) && attempt == limit
  }

  /** What the attempt loop did with the message `m` and at most `limit` attempts: it gave up
      at once (nothing tried, `undefined`) exactly when `limit < 1`; otherwise every attempt
      before the last one failed in a way that is retried, the waits between them grew by
      1000 ms per attempt, and the last attempt's answer decided the outcome. */
  predicate Tried(m: Message, limit: int, send: (Message, nat) -> Response,
                  outcome: Outcome, attempts: nat, waits: seq<int>)
  {
    && (outcome == Undefined <==> limit < 1)
    && (attempts == 0 <==> limit < 1)
    && (attempts == 0 ==> waits == [])
    && (attempts > 0 ==>
          && attempts <= limit
          && (forall k :: 1 <= k < attempts ==> !Final(send(m, k)))
          && waits == Waits(attempts - 1)
          && Settles(send(m, attempts), outcome, attempts, limit))
  }

  /** The attempt loop of `sendEmail` for the message `m`: at most `limit` attempts, each
      answered by `send`. It returns how it ended, how many attempts it made and the waits it
      made between them. */
  method Attempts(m: Message, limit: int, send: (Message, nat) -> Response)
    returns (outcome: Outcome, attempts: nat, waits: seq<int>)
    ensures Tried(m, limit, send, outcome, attempts, waits)
  {
    waits := [];
    var attempt := 1;
    while attempt <= limit
      invariant 1 <= attempt && (attempt == 1 || attempt <= limit)
      invariant forall k :: 1 <= k < attempt ==> !Final(send(m, k))
      invariant waits == Waits(attempt - 1)
    {
      var response := send(m, attempt);
      if response.Delivered? {
        return Sent(response.messageId), attempt, waits;
      }
      if response == HttpError(401) {
        return Thrown(InvalidKey), attempt, waits;
      }
      if response == HttpError(400) {
        return Thrown(Rejected), attempt, waits;
      }
      if attempt == limit {
        return Thrown(Exhausted), attempt, waits;
      }
      waits := waits + [1000 * attempt];
      attempt := attempt + 1;
    }
    return Undefined, 0, [];
  }

  /** `sendEmail(to, subject, html, retries)`: checks the key and the three fields, then tries
      at most `retries` times (3 when not given). The provider is the function `send` from the
      message and the attempt number to the answer. */
  method SendEmail(apiKey: Option<string>, emailUser: Option<string>, to: Option<string>,
                   subject: Option<string>, html: Option<string>, retries: Option<int>,
                   send: (Message, nat) -> Response)
    returns (outcome: Outcome, attempts: nat, waits: seq<int>)
    ensures !Truthy(apiKey) ==> outcome == Thrown(MissingKey) && attempts == 0 && waits == []
    ensures Truthy(apiKey) && !(Truthy(to) && Truthy(subject) && Truthy(html)) ==>
      outcome == Thrown(InvalidParams) && attempts == 0 && waits == []
    ensures Truthy(apiKey) && Truthy(to) && Truthy(subject) && Truthy(html) ==>
      Tried(MessageOf(SenderOf(emailUser), to.value, subject.value, html.value),
            Limit(retries), send, outcome, attempts, waits)
  {
    if !Truthy(apiKey) {
      return Thrown(MissingKey), 0, [];
    }
    if !Truthy(to) || !Truthy(subject) || !Truthy(html) {
      return Thrown(InvalidParams), 0, [];
    }
    var m := MessageOf(SenderOf(emailUser), to.value, subject.value, html.value);
    outcome, attempts, waits := Attempts(m, Limit(retries), send);
  }
}
