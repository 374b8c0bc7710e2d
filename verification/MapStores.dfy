/** The locked key-value store under the registries: registry/skills/base.go. Every method holds the
    lock throughout, so each is one atomic step. */
module MapStores {
  class MapStore<T> {
    var data: map<string, T>

    constructor ()
      ensures data == map[]
    {
      data := map[];
    }

    method PutIfAbsent(key: string, val: T) returns (stored: bool)
      modifies this
      ensures stored <==> key !in old(data)
      ensures data == if stored then old(data)[key := val] else old(data)
    {
      if key in data {
        return false;
      }
      data := data[key := val];
      stored := true;
    }

    method DeleteIfExists(key: string) returns (deleted: bool)
      modifies this
      ensures deleted <==> key in old(data)
      ensures data == old(data) - {key}
    {
      if key !in data {
        return false;
      }
      data := data - {key};
      deleted := true;
    }
  }
}
