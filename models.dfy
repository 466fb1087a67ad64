/**
 * `load_models`: the reply of `GET /api/tags` becomes the list of selectable
 * model names and the model selected at start, with the status the window
 * shows. The HTTP call and `r.json()` are abstracted into `TagsReply`.
 */
module Models {
  import opened Wrappers

  /** One element of `data["models"]`; `name` is `m.get("name")`, None when absent or null. */
  datatype Entry = Entry(name: Option<string>)

  datatype TagsReply =
    | Unreachable(reason: string)         // `requests.get`, `raise_for_status` or `r.json()` raised, or the
                                          // reply made the comprehension of `load_models` raise: `data` not a dict,
                                          // `"models": null`, or an entry that is not a dict
    | Tags(models: Option<seq<Entry>>)    // `data.get("models", [])`: None when the key is absent

  /** The status label's three states after a refresh. */
  datatype Status = Online | NoModels | Offline(reason: string)

  /** A name `if m.get("name")` keeps: present and non-empty. */
  predicate Kept(e: Entry) {
    e.name.Some? && e.name.value != ""
  }

  /** `[m.get("name") for m in models if m.get("name")]` */
  function Names(models: seq<Entry>): (r: seq<string>)
    ensures |r| <= |models|
    ensures forall k :: 0 <= k < |r| ==> r[k] != ""
    decreases |models|
  {
    if models == [] then []
    else (if Kept(models[0]) then [models[0].name.value] else []) + Names(models[1..])
  }

  /** The comprehension distributes over concatenation: the order of the entries is kept. */
  lemma {:induction false} NamesAppend(a: seq<Entry>, b: seq<Entry>)
    ensures Names(a + b) == Names(a) + Names(b)
    decreases |a|
  {
    if a == [] {
      assert a + b == b;
    } else {
      assert (a + b)[0] == a[0] && (a + b)[1..] == a[1..] + b;
      NamesAppend(a[1..], b);
    }
  }

  /** A name is listed exactly when some entry carries it, non-empty. */
  lemma {:induction false} NamesMembers(models: seq<Entry>, n: string)
    ensures n in Names(models) <==> n != "" && exists k :: 0 <= k < |models| && models[k].name == Some(n)
    decreases |models|
  {
    if models != [] {
      NamesMembers(models[1..], n);
      if exists k :: 0 <= k < |models[1..]| && models[1..][k].name == Some(n) {
        var k :| 0 <= k < |models[1..]| && models[1..][k].name == Some(n);
        assert models[k + 1].name == Some(n);
      }
      if exists k :: 0 <= k < |models| && models[k].name == Some(n) {
        var k :| 0 <= k < |models| && models[k].name == Some(n);
        if k > 0 {
          assert models[1..][k - 1].name == Some(n);
        }
      }
    }
  }

  /**
   * `load_models` after the refresh: the names offered, the model selected
   * and the status. The first name is selected when there is one; otherwise,
   * and whenever the request fails, no model is selected.
   */
  function LoadModels(reply: TagsReply): (r: (seq<string>, Option<string>, Status))
    ensures r.1.Some? <==> r.0 != []
    ensures r.1.Some? ==> r.1.value == r.0[0] && r.1.value != "" && r.2 == Online
    ensures reply.Unreachable? ==> r == ([], None, Offline(reply.reason))
    ensures reply.Tags? ==> r.0 == Names(if reply.models.Some? then reply.models.value else [])
    ensures reply.Tags? && r.0 == [] ==> r.2 == NoModels
  {
    match reply
    case Unreachable(reason) => ([], None, Offline(reason))
    case Tags(models) =>
      var names := Names(if models.Some? then models.value else []);
      if names != [] then (names, Some(names[0]), Online) else ([], None, NoModels)
  }
}
