// The parser's backtracking state of parse-state.h: a cursor in the cooked
// character stream, the accumulated messages, the stack of message
// contexts, and the flags that record what happened during a parse attempt.
// Positions are offsets into the cooked stream; the text itself is not
// needed by these operations.

module ParseStates {
  import opened Chars

  /** std::size_t arithmetic wraps modulo 2^64. */
  const SizeWord: nat := 0x1_0000_0000_0000_0000

  type LanguageFeature = string

  /**
   * The language features of the user state: which are enabled, and which
   * draw a warning when used.  The feature-control class itself is not part
   * of this model.
   */
  datatype UserState = UserState(enabled: set<LanguageFeature>, warned: set<LanguageFeature>)

  /** One entry of the context stack: where it was pushed and its text. */
  datatype ContextFrame = ContextFrame(at: nat, text: string)

  /** A message with its range and the context stack it was said in. */
  datatype ParseMessage = ParseMessage(from: nat, to: nat, text: string, context: seq<ContextFrame>)

  /** The context stack after PushContext. */
  function Pushed(context: seq<ContextFrame>, frame: ContextFrame): (r: seq<ContextFrame>)
    ensures |r| == |context| + 1 && r[|context|] == frame
  {
    context + [frame]
  }

  /** The context stack after PopContext: the innermost context goes. */
  function Popped(context: seq<ContextFrame>): (r: seq<ContextFrame>)
    requires context != []
    ensures |r| == |context| - 1 && r == context[..|context| - 1]
  {
    context[..|context| - 1]
  }

  /** PopContext undoes PushContext, and a pop after pushes returns the stack before them. */
  lemma PopUndoesPush(context: seq<ContextFrame>, frame: ContextFrame)
    ensures Popped(Pushed(context, frame)) == context
  {
    assert (context + [frame])[..|context|] == context;
  }

  lemma {:induction false} PopsUndoPushes(context: seq<ContextFrame>, frames: seq<ContextFrame>)
    ensures PopAll(PushAll(context, frames), |frames|) == context
    decreases |frames|
  {
    if frames != [] {
      var last := frames[|frames| - 1];
      assert PushAll(context, frames) == Pushed(PushAll(context, frames[..|frames| - 1]), last);
      PopUndoesPush(PushAll(context, frames[..|frames| - 1]), last);
      PopsUndoPushes(context, frames[..|frames| - 1]);
    }
  }

  /** The stack after pushing frames in order. */
  function PushAll(context: seq<ContextFrame>, frames: seq<ContextFrame>): (r: seq<ContextFrame>)
    ensures |r| == |context| + |frames|
    decreases |frames|
  {
    if frames == [] then context else Pushed(PushAll(context, frames[..|frames| - 1]), frames[|frames| - 1])
  }

  /** The stack after n pops. */
  function PopAll(context: seq<ContextFrame>, n: nat): seq<ContextFrame>
    requires n <= |context|
    decreases n
  {
    if n == 0 then context else PopAll(Popped(context), n - 1)
  }

  class ParseState {
    /** The cursor and the end of the text remaining to be parsed. */
    var p: nat
    var limit: nat
    var messages: seq<ParseMessage>
    var context: seq<ContextFrame>
    var userState: Option<UserState>
    var inFixedForm: bool
    var anyErrorRecovery: bool
    var anyConformanceViolation: bool
    var deferMessages: bool
    var anyDeferredMessages: bool
    var anyTokenMatched: bool

    /** A state at the start of a cooked stream of size characters. */
    constructor (size: nat)
      ensures p == 0 && limit == size && messages == [] && context == [] && userState == None
      ensures !inFixedForm && !anyErrorRecovery && !anyConformanceViolation
      ensures !deferMessages && !anyDeferredMessages && !anyTokenMatched
    {
      p := 0;
      limit := size;
      messages := [];
      context := [];
      userState := None;
      inFixedForm := false;
      anyErrorRecovery := false;
      anyConformanceViolation := false;
      deferMessages := false;
      anyDeferredMessages := false;
      anyTokenMatched := false;
    }

    /** The copy constructor: everything but the messages, which start empty. */
    constructor Copy(that: ParseState)
      ensures p == that.p && limit == that.limit && context == that.context && userState == that.userState
      ensures inFixedForm == that.inFixedForm && anyErrorRecovery == that.anyErrorRecovery
      ensures anyConformanceViolation == that.anyConformanceViolation && deferMessages == that.deferMessages
      ensures anyDeferredMessages == that.anyDeferredMessages && anyTokenMatched == that.anyTokenMatched
      ensures messages == []
    {
      p := that.p;
      limit := that.limit;
      messages := [];
      context := that.context;
      userState := that.userState;
      inFixedForm := that.inFixedForm;
      anyErrorRecovery := that.anyErrorRecovery;
      anyConformanceViolation := that.anyConformanceViolation;
      deferMessages := that.deferMessages;
      anyDeferredMessages := that.anyDeferredMessages;
      anyTokenMatched := that.anyTokenMatched;
    }

    /** The copy assignment: everything but the messages, which stay as they were. */
    method Assign(that: ParseState)
      modifies this
      ensures p == old(that.p) && limit == old(that.limit) && context == old(that.context)
      ensures userState == old(that.userState) && inFixedForm == old(that.inFixedForm)
      ensures anyErrorRecovery == old(that.anyErrorRecovery) && anyConformanceViolation == old(that.anyConformanceViolation)
      ensures deferMessages == old(that.deferMessages) && anyDeferredMessages == old(that.anyDeferredMessages)
      ensures anyTokenMatched == old(that.anyTokenMatched)
      ensures messages == old(messages)
    {
      var p', limit', context', userState', inFixedForm' := that.p, that.limit, that.context, that.userState, that.inFixedForm;
      var recovery, violation := that.anyErrorRecovery, that.anyConformanceViolation;
      var defer, deferred, matched := that.deferMessages, that.anyDeferredMessages, that.anyTokenMatched;
      p, limit, context, userState, inFixedForm := p', limit', context', userState', inFixedForm';
      anyErrorRecovery, anyConformanceViolation := recovery, violation;
      deferMessages, anyDeferredMessages, anyTokenMatched := defer, deferred, matched;
    }

    method SetAnyErrorRecovery()
      modifies this`anyErrorRecovery
      ensures anyErrorRecovery
    {
      anyErrorRecovery := true;
    }

    method SetAnyConformanceViolation()
      modifies this`anyConformanceViolation
      ensures anyConformanceViolation
    {
      anyConformanceViolation := true;
    }

    method SetUserState(u: Option<UserState>)
      modifies this`userState
      ensures userState == u
    {
      userState := u;
    }

    method SetInFixedForm(yes: bool)
      modifies this`inFixedForm
      ensures inFixedForm == yes
    {
      inFixedForm := yes;
    }

    method SetDeferMessages(yes: bool)
      modifies this`deferMessages
      ensures deferMessages == yes
    {
      deferMessages := yes;
    }

    method SetAnyDeferredMessages(yes: bool)
      modifies this`anyDeferredMessages
      ensures anyDeferredMessages == yes
    {
      anyDeferredMessages := yes;
    }

    method SetAnyTokenMatched(yes: bool)
      modifies this`anyTokenMatched
      ensures anyTokenMatched == yes
    {
      anyTokenMatched := yes;
    }

    // -------------------------------------------------------------------
    // Contexts and messages

    /** PushContext: a new innermost context at the cursor. */
    method PushContext(text: string)
      modifies this`context
      ensures context == Pushed(old(context), ContextFrame(p, text))
    {
      context := context + [ContextFrame(p, text)];
    }

    /** PopContext: drops the innermost context; there must be one. */
    method PopContext()
      requires context != []
      modifies this`context
      ensures context == Popped(old(context))
    {
      context := context[..|context| - 1];
    }

    /**
     * Say: while messages are deferred only the fact that one was said is
     * recorded; otherwise the message is appended with the current context.
     */
    method Say(from: nat, to: nat, text: string)
      modifies this`messages, this`anyDeferredMessages
      ensures deferMessages ==> anyDeferredMessages && messages == old(messages)
      ensures !deferMessages ==> anyDeferredMessages == old(anyDeferredMessages) &&
                                 messages == old(messages) + [ParseMessage(from, to, text, context)]
    {
      if deferMessages {
        anyDeferredMessages := true;
      } else {
        messages := messages + [ParseMessage(from, to, text, context)];
      }
    }

    /** Say at the cursor: the one-character range that starts there. */
    method SayHere(text: string)
      modifies this`messages, this`anyDeferredMessages
      ensures deferMessages ==> anyDeferredMessages && messages == old(messages)
      ensures !deferMessages ==> anyDeferredMessages == old(anyDeferredMessages) &&
                                 messages == old(messages) + [ParseMessage(p, p + 1, text, context)]
    {
      Say(p, p + 1, text);
    }

    /** The user state asks for a warning when feature lf is used. */
    predicate WarnsAbout(lf: LanguageFeature)
      reads this
    {
      userState.Some? && lf in userState.value.warned
    }

    /**
     * Nonstandard: records a conformance violation and, when the user state
     * asks for it, says msg over the range.
     */
    method Nonstandard(from: nat, to: nat, lf: LanguageFeature, msg: string)
      modifies this`anyConformanceViolation, this`messages, this`anyDeferredMessages
      ensures anyConformanceViolation
      ensures !WarnsAbout(lf) ==> messages == old(messages) && anyDeferredMessages == old(anyDeferredMessages)
      ensures WarnsAbout(lf) && deferMessages ==> anyDeferredMessages && messages == old(messages)
      ensures WarnsAbout(lf) && !deferMessages ==>
        anyDeferredMessages == old(anyDeferredMessages) && messages == old(messages) + [ParseMessage(from, to, msg, context)]
    {
      anyConformanceViolation := true;
      if userState.Some? && lf in userState.value.warned {
        Say(from, to, msg);
      }
    }

    /**
     * IsNonstandardOk: false, with nothing changed, when the user state
     * disables lf; otherwise the use is reported as nonstandard at the cursor
     * and allowed.
     */
    method IsNonstandardOk(lf: LanguageFeature, msg: string) returns (ok: bool)
      modifies this`anyConformanceViolation, this`messages, this`anyDeferredMessages
      ensures ok <==> !(userState.Some? && lf !in userState.value.enabled)
      ensures !ok ==> anyConformanceViolation == old(anyConformanceViolation) &&
                      messages == old(messages) && anyDeferredMessages == old(anyDeferredMessages)
      ensures ok ==> anyConformanceViolation
      ensures ok && !WarnsAbout(lf) ==> messages == old(messages) && anyDeferredMessages == old(anyDeferredMessages)
      ensures ok && WarnsAbout(lf) && deferMessages ==> anyDeferredMessages && messages == old(messages)
      ensures ok && WarnsAbout(lf) && !deferMessages ==>
        messages == old(messages) + [ParseMessage(p, p + 1, msg, context)] && anyDeferredMessages == old(anyDeferredMessages)
    {
      if userState.Some? && lf !in userState.value.enabled {
        return false;
      }
      Nonstandard(p, p + 1, lf, msg);
      return true;
    }

    // -------------------------------------------------------------------
    // The cursor

    predicate IsAtEnd()
      reads this
    {
      p >= limit
    }

    /** BytesRemaining: limit minus the cursor as a std::size_t, which wraps past the limit. */
    function BytesRemaining(): (n: nat)
      reads this
      ensures n < SizeWord
      ensures p <= limit && limit - p < SizeWord ==> n == limit - p
      ensures limit < p && p - limit <= SizeWord ==> n == SizeWord - (p - limit)
    {
      (limit - p) % SizeWord
    }

    /** UncheckedAdvance: the old cursor, moved on by n without any check. */
    method UncheckedAdvance(n: nat) returns (result: nat)
      modifies this`p
      ensures result == old(p) && p == old(p) + n
    {
      result := p;
      p := p + n;
    }

    /** GetNextChar: the position of the next character, consumed; None at the end, with nothing changed. */
    method GetNextChar() returns (r: Option<nat>)
      modifies this`p
      ensures old(p) < limit ==> r == Some(old(p)) && p == old(p) + 1
      ensures old(p) >= limit ==> r == None && p == old(p)
    {
      if p < limit {
        var at := UncheckedAdvance(1);
        return Some(at);
      } else {
        return None;
      }
    }

    /** PeekAtNextChar: the position of the next character, if any; the cursor stays. */
    function PeekAtNextChar(): (r: Option<nat>)
      reads this
      ensures r.Some? <==> !IsAtEnd()
      ensures r.Some? ==> r.value == p
    {
      if p < limit then Some(p) else None
    }

    // -------------------------------------------------------------------
    // Backtracking

    /**
     * CombineFailedParses: after two failed alternatives, keep the one that
     * got further.  prev's position and messages are taken when prev matched
     * a token and this state matched none or stopped earlier; the messages
     * are merged when both stopped at the same position.  The deferred,
     * conformance and recovery flags are the union of both.
     */
    method CombineFailedParses(prev: ParseState)
      requires prev != this
      modifies this`anyTokenMatched, this`p, this`messages, this`anyDeferredMessages,
               this`anyConformanceViolation, this`anyErrorRecovery
      ensures prev.anyTokenMatched && (!old(anyTokenMatched) || prev.p > old(p)) ==>
        anyTokenMatched && p == prev.p && messages == prev.messages
      ensures prev.anyTokenMatched && old(anyTokenMatched) && prev.p == old(p) ==>
        anyTokenMatched && p == old(p) && messages == old(messages) + prev.messages
      ensures prev.anyTokenMatched && old(anyTokenMatched) && prev.p < old(p) ==>
        anyTokenMatched && p == old(p) && messages == old(messages)
      ensures !prev.anyTokenMatched ==>
        anyTokenMatched == old(anyTokenMatched) && p == old(p) && messages == old(messages)
      ensures prev.anyTokenMatched ==> anyTokenMatched
      ensures prev.anyTokenMatched && old(anyTokenMatched) ==> p == if prev.p > old(p) then prev.p else old(p)
      ensures anyDeferredMessages == (old(anyDeferredMessages) || prev.anyDeferredMessages)
      ensures anyConformanceViolation == (old(anyConformanceViolation) || prev.anyConformanceViolation)
      ensures anyErrorRecovery == (old(anyErrorRecovery) || prev.anyErrorRecovery)
    {
      if prev.anyTokenMatched {
        if !anyTokenMatched || prev.p > p {
          anyTokenMatched := true;
          p := prev.p;
          messages := prev.messages;
        } else if prev.p == p {
          messages := messages + prev.messages;
        }
      }
      anyDeferredMessages := anyDeferredMessages || prev.anyDeferredMessages;
      anyConformanceViolation := anyConformanceViolation || prev.anyConformanceViolation;
      anyErrorRecovery := anyErrorRecovery || prev.anyErrorRecovery;
    }
  }

  /** For a stream shorter than 2^64 with the cursor inside it, the state is at its end exactly when no bytes remain. */
  lemma AtEndIffNoBytesRemain(s: ParseState)
    requires s.p <= s.limit < SizeWord
    ensures s.IsAtEnd() <==> s.BytesRemaining() == 0
    ensures s.PeekAtNextChar().None? <==> s.BytesRemaining() == 0
  {
  }
}
