/**
 cJSON objects: ordered lists of named items, appended to, looked up first match first, and
 released by hand. The heap records which trees are alive and every release that happened.
 */
module Json {
  import opened CText

  datatype Json =
    | Text(text: string)
    | Number(number: real)
    | Bool(flag: bool)
    | List(elements: seq<Json>)
    | Object(items: seq<Item>)

  datatype Item = Item(key: string, value: Json)

  /** `cJSON_GetObjectItemCaseSensitive`, or `cJSON_GetObjectItem`, then `cJSON_GetStringValue`. */
  function StringItem(items: seq<Item>, key: string, caseSensitive: bool): Option<string> {
    if items == [] then None
    else if SameText(items[0].key, key, caseSensitive) then
      if items[0].value.Text? then Some(items[0].value.text) else None
    else StringItem(items[1..], key, caseSensitive)
  }

  type TreeId = nat

  class JsonHeap {
    var trees: map<TreeId, seq<Item>>  // the trees that are alive
    var freed: seq<TreeId>             // the releases, in order
    var next: TreeId                   // the number of trees created so far

    /** Every tree ever created is either alive or was released exactly once. */
    ghost predicate Valid()
      reads this
    {
      && NoDuplicates(freed)
      && (forall t: TreeId :: t < next <==> t in trees || t in freed)
      && (forall t: TreeId | t in trees :: t !in freed)
    }

    constructor ()
      ensures Valid() && trees == map[] && freed == [] && next == 0
    {
      trees, freed, next := map[], [], 0;
    }

    method CreateObject() returns (t: TreeId)
      requires Valid()
      modifies this
      ensures Valid()
      ensures t == old(next) && t !in old(trees)
      ensures trees == old(trees)[t := []] && trees.Keys == old(trees.Keys) + {t}
      ensures next == old(next) + 1 && freed == old(freed)
    {
      t := next;
      trees := trees[t := []];
      next := next + 1;
    }

    method Add(t: TreeId, item: Item)
      requires Valid() && t in trees
      modifies `trees
      ensures Valid()
      ensures trees == old(trees)[t := old(trees[t]) + [item]]
    {
      trees := trees[t := trees[t] + [item]];
    }

    /** Releasing asks for a live tree: a second release, or a read after one, cannot be written. */
    method Delete(t: TreeId)
      requires Valid() && t in trees
      modifies this
      ensures Valid()
      ensures trees == old(trees) - {t}
      ensures freed == old(freed) + [t] && next == old(next)
    {
      trees := trees - {t};
      freed := freed + [t];
    }
  }
}
