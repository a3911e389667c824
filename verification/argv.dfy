/** The token structure shared by the demos' hand-written `ParseOptions`
    loops. Each loop walks `argv` from index 1: a value flag takes the next
    element as its value and advances by two, `-h` ends the scan, and any
    other element is skipped on its own. The three parsers are written as
    index loops in their own modules and proved equal to the token view here. */
module Argv {
  import opened Base

  /** One step of a scan: a value flag with the element after it (`None` when
      the flag is the last element), the help flag, or a skipped element. */
  datatype Token = Valued(flag: string, value: Option<string>) | Help | Word(text: string)

  /** The steps a scan takes from index `i`, when `valueFlags` are the flags
      that consume the element after them. */
  function Tokens(args: seq<string>, i: nat, valueFlags: set<string>): (ts: seq<Token>)
    ensures i >= |args| <==> ts == []
    decreases |args| - i
  {
    if i >= |args| then []
    else if args[i] in valueFlags then
      [Valued(args[i], if i + 1 < |args| then Some(args[i + 1]) else None)]
        + Tokens(args, i + 2, valueFlags)
    else if args[i] == "-h" then [Help] + Tokens(args, i + 1, valueFlags)
    else [Word(args[i])] + Tokens(args, i + 1, valueFlags)
  }

  /** The steps that take effect: those before the first help flag. */
  function BeforeHelp(ts: seq<Token>): (pre: seq<Token>)
    ensures pre <= ts
    ensures Help !in pre
    ensures |pre| < |ts| ==> ts[|pre|] == Help
  {
    if |ts| == 0 || ts[0] == Help then [] else [ts[0]] + BeforeHelp(ts[1..])
  }

  /** Every effective occurrence of a flag in `needy` has its value: the
      source reads `argv[index + 1]` for it unchecked, which is past the end
      of `argv` when the flag comes last. */
  predicate ValuesPresent(ts: seq<Token>, needy: set<string>) {
    |ts| == 0 || ts[0] == Help ||
    ((ts[0].Valued? && ts[0].flag in needy ==> ts[0].value.Some?) && ValuesPresent(ts[1..], needy))
  }

  predicate Matches(t: Token, flags: set<string>) {
    t.Valued? && t.flag in flags
  }

  /** The last step that sets one of `flags`: the occurrence that wins. */
  function LastOf(ts: seq<Token>, flags: set<string>): (r: Option<Token>)
    ensures r.None? <==> forall k | 0 <= k < |ts| :: !Matches(ts[k], flags)
    ensures r.Some? ==>
      exists k | 0 <= k < |ts| :: ts[k] == r.value && Matches(ts[k], flags) &&
        forall j | k < j < |ts| :: !Matches(ts[j], flags)
  {
    if |ts| == 0 then None
    else
      var later := LastOf(ts[1..], flags);
      if later.Some? then
        var k :| 0 <= k < |ts[1..]| && ts[1..][k] == later.value && Matches(ts[1..][k], flags) &&
          forall j | k < j < |ts[1..]| :: !Matches(ts[1..][j], flags);
        assert ts[k + 1] == later.value;
        later
      else if Matches(ts[0], flags) then Some(ts[0])
      else None
  }

  /** The value of the last occurrence of `flag`, if it has one. */
  function LastValue(ts: seq<Token>, flag: string): Option<string> {
    match LastOf(ts, {flag})
    case Some(Valued(_, Some(v))) => Some(v)
    case _ => None
  }

  /** The value a scan leaves for the setting `flag` overrides: that of its
      last occurrence before any help flag, or `None` when the scan never sets it. */
  function Effective(ts: seq<Token>, flag: string): Option<string> {
    LastValue(BeforeHelp(ts), flag)
  }

  lemma BeforeHelpCons(t: Token, ts: seq<Token>)
    ensures BeforeHelp([t] + ts) == if t == Help then [] else [t] + BeforeHelp(ts)
  {
    assert ([t] + ts)[1..] == ts;
  }

  lemma LastOfCons(t: Token, ts: seq<Token>, flags: set<string>)
    ensures LastOf([t] + ts, flags) ==
      if LastOf(ts, flags).Some? then LastOf(ts, flags)
      else if Matches(t, flags) then Some(t)
      else None
  {
    assert ([t] + ts)[1..] == ts;
  }

  lemma ValuesPresentCons(t: Token, ts: seq<Token>, needy: set<string>)
    requires ValuesPresent([t] + ts, needy)
    ensures t.Valued? && t.flag in needy ==> t.value.Some?
    ensures t != Help ==> ValuesPresent(ts, needy)
  {
    assert ([t] + ts)[1..] == ts;
  }

  /** Under `ValuesPresent`, a winning occurrence of a needy flag has a value. */
  lemma {:induction false} LastHasValue(ts: seq<Token>, needy: set<string>, flags: set<string>)
    requires ValuesPresent(ts, needy)
    ensures LastOf(BeforeHelp(ts), flags).Some? && LastOf(BeforeHelp(ts), flags).value.flag in needy ==>
      LastOf(BeforeHelp(ts), flags).value.value.Some?
  {
    if |ts| > 0 && ts[0] != Help {
      assert ts == [ts[0]] + ts[1..];
      ValuesPresentCons(ts[0], ts[1..], needy);
      BeforeHelpCons(ts[0], ts[1..]);
      LastOfCons(ts[0], BeforeHelp(ts[1..]), flags);
      LastHasValue(ts[1..], needy, flags);
    }
  }

  /** Past a help flag no setting takes effect. */
  lemma EffectiveAfterHelp(ts: seq<Token>, flag: string)
    ensures Effective([Help] + ts, flag) == None
  {
    BeforeHelpCons(Help, ts);
    assert LastOf([], {flag}) == None;
  }

  /** An occurrence of `flag` sets it unless a later step overrides it. */
  lemma EffectiveMatch(t: Token, ts: seq<Token>, needy: set<string>, flag: string)
    requires ValuesPresent([t] + ts, needy)
    requires flag in needy && t != Help && Matches(t, {flag})
    ensures t.value.Some?
    ensures Effective([t] + ts, flag) == if Effective(ts, flag).Some? then Effective(ts, flag) else t.value
  {
    ValuesPresentCons(t, ts, needy);
    BeforeHelpCons(t, ts);
    var pre := BeforeHelp(ts);
    LastOfCons(t, pre, {flag});
    if LastOf(pre, {flag}).Some? {
      LastHasValue(ts, needy, {flag});
      assert LastValue([t] + pre, flag) == LastValue(pre, flag);
    } else {
      assert LastOf([t] + pre, {flag}) == Some(t);
    }
  }

  /** Any other step leaves the setting alone. */
  lemma EffectiveOther(t: Token, ts: seq<Token>, flag: string)
    requires t != Help && !Matches(t, {flag})
    ensures Effective([t] + ts, flag) == Effective(ts, flag)
  {
    BeforeHelpCons(t, ts);
    LastOfCons(t, BeforeHelp(ts), {flag});
  }

  /** One step of a scan: a help flag ends it with the setting untouched;
      an occurrence of `flag` sets it unless a later step overrides it; any
      other step leaves it alone. */
  lemma EffectiveCons(t: Token, ts: seq<Token>, needy: set<string>, flag: string)
    requires ValuesPresent([t] + ts, needy)
    requires flag in needy
    ensures t == Help ==> Effective([t] + ts, flag) == None
    ensures t != Help && Matches(t, {flag}) ==>
      t.value.Some? &&
      Effective([t] + ts, flag) == if Effective(ts, flag).Some? then Effective(ts, flag) else t.value
    ensures t != Help && !Matches(t, {flag}) ==> Effective([t] + ts, flag) == Effective(ts, flag)
  {
    if t == Help {
      EffectiveAfterHelp(ts, flag);
    } else if Matches(t, {flag}) {
      EffectiveMatch(t, ts, needy, flag);
    } else {
      EffectiveOther(t, ts, flag);
    }
  }
}
