// The metadata-key check every attribute handler starts with: each key of
// the parsed `key: value` map must be one the attribute accepts, and the
// first key that is not (in the map's unspecified order) is reported.
module AttributeKeys {
  import opened Outcomes

  function UnknownKeyMsg(key: string): string
  {
    "unknown key: " + key
  }

  /// The loop over `attributes.keys()`: success exactly when every key is
  /// allowed; otherwise the error names some key that is not.
  method CheckKeys<V>(attributes: map<string, V>, allowed: set<string>) returns (r: Result<()>)
    ensures r.Ok? <==> attributes.Keys <= allowed
    ensures r.Err? ==> exists k :: k in attributes && k !in allowed && r.msg == UnknownKeyMsg(k)
  {
    var rest := attributes.Keys;
    while rest != {}
      invariant rest <= attributes.Keys
      invariant attributes.Keys - rest <= allowed
      decreases |rest|
    {
      var k :| k in rest;
      if k !in allowed {
        return Err(UnknownKeyMsg(k));
      }
      rest := rest - {k};
    }
    return Ok(());
  }
}
