/** `basic_greeting` of yakusoku/modules/greeting/basic.py: a table of
    (time of day, greeting) entries in insertion order; the first entry whose
    time lies strictly after the query wins, and when none does the first
    entry's greeting is used. Times of day are seconds since midnight. */
module Greeting {

  import opened Wrappers

  const Hour: int := 3600

  datatype Entry = Entry(time: int, greeting: string)

  /** The `GREETINGS` table, in its insertion order. */
  const Greetings: seq<Entry> := [
    Entry(0, "晚上好"),
    Entry(6 * Hour, "晚上好哦夜猫子"),
    Entry(11 * Hour, "早上好"),
    Entry(13 * Hour, "中午好"),
    Entry(17 * Hour, "傍晚好")
  ]

  /** The position of the first entry at or after `from` whose time is later
      than `query`. */
  function FirstLater(table: seq<Entry>, query: int, from: nat): (r: Option<nat>)
    requires from <= |table|
    ensures r.Some? ==> from <= r.value < |table| && query < table[r.value].time
    ensures r.Some? ==> forall j :: from <= j < r.value ==> table[j].time <= query
    ensures r.None? ==> forall j :: from <= j < |table| ==> table[j].time <= query
    decreases |table| - from
  {
    if from == |table| then None
    else if query < table[from].time then Some(from)
    else FirstLater(table, query, from + 1)
  }

  /** `basic_greeting(query)`. */
  function BasicGreeting(query: int): (r: string)
    ensures exists i :: 0 <= i < |Greetings| && r == Greetings[i].greeting
  {
    var hit := FirstLater(Greetings, query, 0);
    if hit.Some? then Greetings[hit.value].greeting else Greetings[0].greeting
  }

  /** The loop of `basic_greeting`: the first entry whose time is later
      than the query, else the first entry. */
  method Greet(query: int) returns (r: string)
    ensures r == BasicGreeting(query)
  {
    var i := 0;
    while i < |Greetings|
      invariant 0 <= i <= |Greetings|
      invariant FirstLater(Greetings, query, 0) == FirstLater(Greetings, query, i)
    {
      if query < Greetings[i].time {
        return Greetings[i].greeting;
      }
      i := i + 1;
    }
    r := Greetings[0].greeting;
  }

  /** The 00:00 entry is never strictly after a time of day, so times before
      06:00 get the night-owl greeting. */
  lemma BeforeSix(query: int)
    requires 0 <= query < 6 * Hour
    ensures BasicGreeting(query) == "晚上好哦夜猫子"
  {
    assert FirstLater(Greetings, query, 0) == Some(1);
  }

  lemma Morning(query: int)
    requires 6 * Hour <= query < 11 * Hour
    ensures BasicGreeting(query) == "早上好"
  {
    var r := FirstLater(Greetings, query, 0);
    assert Greetings[2].time > query;
    assert forall j :: 0 <= j < 2 ==> Greetings[j].time <= query;
    assert r == Some(2);
  }

  lemma Noon(query: int)
    requires 11 * Hour <= query < 13 * Hour
    ensures BasicGreeting(query) == "中午好"
  {
    var r := FirstLater(Greetings, query, 0);
    assert Greetings[3].time > query;
    assert forall j :: 0 <= j < 3 ==> Greetings[j].time <= query;
    assert r == Some(3);
  }

  lemma Afternoon(query: int)
    requires 13 * Hour <= query < 17 * Hour
    ensures BasicGreeting(query) == "傍晚好"
  {
    var r := FirstLater(Greetings, query, 0);
    assert Greetings[4].time > query;
    assert forall j :: 0 <= j < 4 ==> Greetings[j].time <= query;
    assert r == Some(4);
  }

  /** From 17:00 on no entry is later, so the first entry's greeting is used. */
  lemma Evening(query: int)
    requires 17 * Hour <= query
    ensures BasicGreeting(query) == "晚上好"
  {
    assert FirstLater(Greetings, query, 0) == None;
  }
}
