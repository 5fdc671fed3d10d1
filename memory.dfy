/**
 * The process-wide conversation memory `message_memory` (main.py:33):
 * an insertion-ordered dictionary from message id to the sender and
 * the text. Entries are never deleted and there is no capacity bound.
 * Re-assigning an existing key replaces its value but keeps the key's
 * original place in the iteration order (Python dict semantics).
 */
module ConversationMemory {

  /** The value stored per message id: `{"user_id": ..., "text": ...}`. */
  datatype Entry = Entry(userId: int, text: string)

  ghost predicate Distinct<T>(s: seq<T>)
  {
    forall i, j :: 0 <= i < j < |s| ==> s[i] != s[j]
  }

  /** `order` lists exactly the keys of `entries`, each once. */
  ghost predicate WellFormed(order: seq<int>, entries: map<int, Entry>)
  {
    && Distinct(order)
    && (forall i :: 0 <= i < |order| ==> order[i] in entries)
    && (forall id :: id in entries ==> id in order)
  }

  /** The keys in iteration order after assigning `id`. */
  function RecordOrder(order: seq<int>, entries: map<int, Entry>, id: int): seq<int>
  {
    if id in entries then order else order + [id]
  }

  /** `[msg['text'] for mid, msg in message_memory.items()]` (main.py:53). */
  function TextsOf(order: seq<int>, entries: map<int, Entry>): (r: seq<string>)
    requires forall i :: 0 <= i < |order| ==> order[i] in entries
    ensures |r| == |order|
    ensures forall i :: 0 <= i < |order| ==> r[i] == entries[order[i]].text
  {
    seq(|order|, i requires 0 <= i < |order| => entries[order[i]].text)
  }

  /** A duplicate-free key list has as many keys as a map with exactly those keys. */
  lemma {:induction false} DistinctKeysSize(order: seq<int>, entries: map<int, Entry>)
    requires WellFormed(order, entries)
    ensures |entries| == |order|
  {
    if order == [] {
      forall id ensures id !in entries.Keys {
        assert id in entries ==> id in order;
      }
      assert entries.Keys == {};
    } else {
      var last := order[|order| - 1];
      var front := order[..|order| - 1];
      var smaller := entries - {last};
      assert order == front + [last];
      forall id | id in front ensures id != last {
        var k :| 0 <= k < |front| && front[k] == id;
        assert order[k] == id;
      }
      forall i | 0 <= i < |front| ensures front[i] in smaller {
        assert front[i] == order[i];
      }
      DistinctKeysSize(front, smaller);
    }
  }

  class MessageMemory {
    /** The keys in insertion order. */
    var order: seq<int>
    /** The stored value of each key. */
    var entries: map<int, Entry>

    ghost predicate Valid()
      reads this
    {
      WellFormed(order, entries)
    }

    /** The empty memory at process start. */
    constructor ()
      ensures Valid()
      ensures order == [] && entries == map[]
    {
      order := [];
      entries := map[];
    }

    /**
     * `message_memory[id] = entry` (main.py:44-47): the entry of `id`
     * is replaced or added, every other key keeps its entry, an existing
     * key keeps its place and a new key goes last, so the key set only
     * grows and it grows by one exactly when `id` is new.
     */
    method Record(id: int, entry: Entry)
      requires Valid()
      modifies this
      ensures Valid()
      ensures entries == old(entries)[id := entry]
      ensures order == RecordOrder(old(order), old(entries), id)
      ensures old(entries).Keys <= entries.Keys
      ensures |entries| == |old(entries)| + (if id in old(entries) then 0 else 1)
      ensures |entries| == |order|
    {
      if id !in entries {
        order := order + [id];
      }
      entries := entries[id := entry];
      DistinctKeysSize(order, entries);
    }
  }

  /**
   * Recording an id that is already stored keeps every key in place;
   * only that id's text changes, and every other text stays.
   */
  lemma RerecordKeepsPlaces(order: seq<int>, entries: map<int, Entry>, id: int, entry: Entry, k: int)
    requires WellFormed(order, entries)
    requires 0 <= k < |order| && order[k] == id
    ensures RecordOrder(order, entries, id) == order
    ensures var texts := TextsOf(order, entries[id := entry]);
      && texts[k] == entry.text
      && (forall i :: 0 <= i < |order| && i != k ==> texts[i] == TextsOf(order, entries)[i])
  {
  }

  /** Recording a new id appends its text after all the earlier ones. */
  lemma RecordNewAppends(order: seq<int>, entries: map<int, Entry>, id: int, entry: Entry)
    requires WellFormed(order, entries)
    requires id !in entries
    ensures TextsOf(RecordOrder(order, entries, id), entries[id := entry]) == TextsOf(order, entries) + [entry.text]
  {
  }
}
