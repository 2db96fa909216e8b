/**
 * The back end's memory list and the reply parsing of its `/ask` handler
 * (backend/main.py). The language-model call is not part of the model: its
 * outcome is a parameter, a function from the memory context sent in the
 * system prompt and the user's question to either the reply text or the
 * message of the exception the client raised.
 */
module MemoryStore {
  import opened Wrappers
  import opened Records
  import opened PyStrings

  /** The marker that opens the memory part of a reply. */
  const Marker := "MEMORISE:"

  /** The separator between the memory text and the answer. */
  const Bar := "|"

  /** The answer returned when the language-model call raises. */
  const ErrorPrefix := "ERREUR : "

  /** The list `load_memories` falls back to when there is no readable file. */
  const DefaultMemories: seq<Memory> := [
    Memory(1, "Système Nexus initialisé", "system"),
    Memory(2, "Mémoire persistante activée", "system")
  ]

  lemma DefaultIdsConsecutive()
    ensures IdsConsecutive(DefaultMemories) && |DefaultMemories| == 2
  {
  }

  /** The outcome of the language-model call. */
  datatype Reply = Completion(content: string) | ProviderError(message: string)

  /** What the handler makes of a reply: the answer text and, maybe, a memory text to store. */
  datatype Parsed = Parsed(response: string, memory: Option<string>)

  /** The memory length guard: a non-empty text of more than three characters. */
  predicate WorthStoring(memoryText: string)
  {
    memoryText != "" && |memoryText| > 3
  }

  /**
   * The reply parsing: split on the marker, keep the second piece, split it
   * on the bar, strip the first two pieces. An `IndexError` (no bar in that
   * piece) is swallowed, leaving the whole reply as the answer.
   */
  function ParseReply(full: string): (p: Parsed)
    ensures !Contains(full, Marker) ==> p == Parsed(full, None)
    ensures p.memory.Some? ==> Contains(full, Marker) && |p.memory.value| > 3
  {
    if !Contains(full, Marker) then Parsed(full, None)
    else
      var parts := Split(Split(full, Marker)[1], Bar);
      if |parts| < 2 then Parsed(full, None)
      else
        var memoryText := Strip(parts[0]);
        Parsed(Strip(parts[1]), if WorthStoring(memoryText) then Some(memoryText) else None)
  }

  /** The text between the first marker and the next one, or the end of the reply. */
  function Chunk(full: string): (c: string)
    requires Contains(full, Marker)
  {
    UpTo(After(full, Marker), Marker)
  }

  /** A reply without the marker is returned unchanged and stores nothing. */
  lemma NoMarkerPassesThrough(full: string)
    requires !Contains(full, Marker)
    ensures ParseReply(full) == Parsed(full, None)
  {
  }

  /**
   * A marker whose chunk holds no bar: the index error is swallowed, the
   * answer is the whole raw reply and nothing is stored.
   */
  lemma MissingBarPassesThrough(full: string)
    requires Contains(full, Marker) && !Contains(Chunk(full), Bar)
    ensures ParseReply(full) == Parsed(full, None)
  {
    assert Split(full, Marker)[1] == Chunk(full);
    assert |Split(Chunk(full), Bar)| == 1;
  }

  /**
   * A marker whose chunk holds a bar: the memory text is the stripped text
   * before the first bar, the answer the stripped text between the first
   * and the second bar (or the end of the chunk); later pieces are dropped.
   * The memory is kept exactly when it passes the length guard.
   */
  lemma MarkedReplyParts(full: string)
    ensures Contains(full, Marker) && Contains(Chunk(full), Bar) ==>
      var memoryText := Strip(UpTo(Chunk(full), Bar));
      && ParseReply(full).response == Strip(UpTo(After(Chunk(full), Bar), Bar))
      && (ParseReply(full).memory == if |memoryText| > 3 then Some(memoryText) else None)
  {
    if Contains(full, Marker) && Contains(Chunk(full), Bar) {
      var chunk := Chunk(full);
      assert Split(full, Marker)[1] == chunk;
      var parts := Split(chunk, Bar);
      assert |parts| >= 2;
      assert parts[0] == UpTo(chunk, Bar) && parts[1] == UpTo(After(chunk, Bar), Bar);
    }
  }

  /**
   * A memory is stored only from a reply with the marker and a bar in its
   * chunk, and its text is longer than three characters and already
   * stripped of surrounding whitespace.
   */
  lemma StoredMemoryShape(full: string)
    ensures ParseReply(full).memory.Some? ==>
      && Contains(full, Marker) && Contains(Chunk(full), Bar)
      && |ParseReply(full).memory.value| > 3
      && Strip(ParseReply(full).memory.value) == ParseReply(full).memory.value
  {
    if !Contains(full, Marker) {
      NoMarkerPassesThrough(full);
    } else if !Contains(Chunk(full), Bar) {
      MissingBarPassesThrough(full);
    } else {
      MarkedReplyParts(full);
      StripIdempotent(UpTo(Chunk(full), Bar));
    }
  }

  /** The answer of a reply with the marker and a bar in its chunk is itself stripped. */
  lemma ParsedResponseIsStripped(full: string)
    ensures Contains(full, Marker) && Contains(Chunk(full), Bar) ==>
      Strip(ParseReply(full).response) == ParseReply(full).response
  {
    if Contains(full, Marker) && Contains(Chunk(full), Bar) {
      MarkedReplyParts(full);
      StripIdempotent(UpTo(After(Chunk(full), Bar), Bar));
    }
  }

  /** One line of the prompt's memory context. */
  function ContextLine(m: Memory): string
  {
    "- " + m.text
  }

  /** The memory context of the system prompt: each text prefixed with "- ", joined by newlines. */
  function MemoryContext(ms: seq<Memory>): (c: string)
    ensures ms == [] ==> c == ""
    ensures ms != [] ==> |ContextLine(ms[0])| <= |c| && c[..|ContextLine(ms[0])|] == ContextLine(ms[0])
  {
    Join(ContextLines(ms), "\n")
  }

  function ContextLines(ms: seq<Memory>): (lines: seq<string>)
    ensures |lines| == |ms|
    ensures forall i :: 0 <= i < |ms| ==> lines[i] == ContextLine(ms[i])
  {
    seq(|ms|, i requires 0 <= i < |ms| => ContextLine(ms[i]))
  }

  /**
   * When no memory text holds a newline, the context splits back into one
   * line per memory, in list order.
   */
  lemma ContextHasOneLinePerMemory(ms: seq<Memory>)
    requires |ms| > 0
    requires forall i :: 0 <= i < |ms| ==> !Contains(ms[i].text, "\n")
    ensures |Split(MemoryContext(ms), "\n")| == |ms|
    ensures forall i :: 0 <= i < |ms| ==> Split(MemoryContext(ms), "\n")[i] == "- " + ms[i].text
  {
    var lines := ContextLines(ms);
    forall i | 0 <= i < |ms|
      ensures !Contains(lines[i], "\n")
    {
      PrefixedKeepsNoNewline(ms[i].text);
    }
    SplitJoin(lines, "\n");
  }

  lemma PrefixedKeepsNoNewline(t: string)
    requires !Contains(t, "\n")
    ensures !Contains("- " + t, "\n")
  {
    var s := "- " + t;
    forall k | 0 <= k < |s|
      ensures !OccursAt(s, "\n", k)
    {
      if k >= 2 {
        assert s[k..k + 1] == t[k - 2..k - 1];
        assert !OccursAt(t, "\n", k - 2);
      } else {
        assert s[k] != '\n';
      }
    }
  }

  /** The record the handler appends: the next id after the current length, category "ai". */
  function NewMemory(ms: seq<Memory>, text: string): (m: Memory)
    ensures m.text == text && m.category == "ai"
    ensures IdsConsecutive(ms) ==> IdsConsecutive(ms + [m])
    ensures IdsConsecutive(ms) ==> forall i :: 0 <= i < |ms| ==> ms[i].id != m.id
  {
    Memory(|ms| + 1, text, "ai")
  }

  /** Appending with the length-derived id keeps ids 1..n consecutive, hence unique. */
  lemma AppendKeepsIdsConsecutive(ms: seq<Memory>, text: string)
    requires IdsConsecutive(ms)
    ensures IdsConsecutive(ms + [NewMemory(ms, text)])
    ensures IdsUnique(ms + [NewMemory(ms, text)])
  {
    ConsecutiveIdsAreUnique(ms + [NewMemory(ms, text)]);
  }

  /** The module-level `MEMORIES` list and the `/ask` handler; `/galaxy` returns `memories` as it is. */
  class Store {
    var memories: seq<Memory>

    /** `load_memories`: the stored list when the file could be read, otherwise the default list. */
    constructor (stored: Option<seq<Memory>>)
      ensures memories == if stored.Some? then stored.value else DefaultMemories
    {
      memories := if stored.Some? then stored.value else DefaultMemories;
    }

    /**
     * `ask_nexus`: build the memory context, ask the language model, parse
     * its reply and append the memory it carries, if any.
     */
    method AskNexus(question: string, provider: (string, string) -> Reply) returns (response: string)
      modifies this
      ensures provider(MemoryContext(old(memories)), question).ProviderError? ==>
        response == ErrorPrefix + provider(MemoryContext(old(memories)), question).message &&
        memories == old(memories)
      ensures provider(MemoryContext(old(memories)), question).Completion? ==>
        var p := ParseReply(provider(MemoryContext(old(memories)), question).content);
        && response == p.response
        && memories == old(memories) + (if p.memory.Some? then [NewMemory(old(memories), p.memory.value)] else [])
      ensures IdsConsecutive(old(memories)) ==> IdsConsecutive(memories)
    {
      var context := MemoryContext(memories);
      var reply := provider(context, question);
      match reply
      case ProviderError(message) =>
        response := ErrorPrefix + message;
      case Completion(full) =>
        var p := ParseReply(full);
        response := p.response;
        if p.memory.Some? {
          if IdsConsecutive(memories) {
            AppendKeepsIdsConsecutive(memories, p.memory.value);
          }
          memories := memories + [NewMemory(memories, p.memory.value)];
        }
    }
  }
}
