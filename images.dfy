/** The image as the two request handlers see it: a colour mode, a size and
    the `info` dictionary of metadata read from the file. Pixels, encodings
    and the library that decodes them stay outside the model. */
module Images {
  import opened Strings

  /** An `info` value: a string, or anything else (bytes, numbers, tuples),
      which both handlers pass over. */
  datatype Value = Text(text: string) | NonText

  /** `img.info`: its entries in the dictionary's iteration order. */
  type Info = seq<(string, Value)>

  datatype Image = Image(mode: string, width: nat, height: nat, info: Info)

  /** `key in info`. */
  predicate HasKey(info: Info, key: string)
  {
    exists k | 0 <= k < |info| :: info[k].0 == key
  }

  /** `info[key]` when the key is present: the value of the first entry
      with that key (a dictionary holds at most one). */
  function Lookup(info: Info, key: string): (r: Option<Value>)
    ensures r.Some? <==> HasKey(info, key)
    ensures r.Some? ==> exists k | 0 <= k < |info| :: info[k] == (key, r.value)
  {
    if info == [] then None
    else if info[0].0 == key then Some(info[0].1)
    else
      var r := Lookup(info[1..], key);
      assert forall k | 1 <= k < |info| :: info[k] == info[1..][k - 1];
      r
  }

  /** Reading a PNG back: each text chunk becomes one string entry, in the
      order the chunks were written. */
  function FromChunks(chunks: seq<(string, string)>): (info: Info)
    ensures |info| == |chunks|
    ensures forall k | 0 <= k < |chunks| :: info[k] == (chunks[k].0, Text(chunks[k].1))
  {
    if chunks == [] then []
    else [(chunks[0].0, Text(chunks[0].1))] + FromChunks(chunks[1..])
  }
}
