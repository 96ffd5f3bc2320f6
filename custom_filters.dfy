/** The two template filters of templatetags/custom_filters.py. */
module CustomFilters {
  import opened Base
  import opened Text

  /** Stripping a stripped string changes nothing. */
  lemma StripIdempotent(s: string)
    ensures Strip(Strip(s)) == Strip(s)
  {
    StripShape(s);
    StripNoSpaceEnds(Strip(s));
  }

  function StripAll(pieces: seq<string>): (r: seq<string>)
    ensures |r| == |pieces| && forall k :: 0 <= k < |r| ==> r[k] == Strip(pieces[k])
  {
    if pieces == [] then [] else [Strip(pieces[0])] + StripAll(pieces[1..])
  }

  /** `split_by_comma`: `[]` for a missing or empty value, otherwise every
      comma-separated piece, stripped; empty pieces are kept. */
  function SplitByComma(value: Option<string>): (r: seq<string>)
    ensures value.None? || value == Some("") ==> r == []
    ensures value.Some? && value.value != "" ==> |r| == CountChar(value.value, ',') + 1
  {
    match value
    case None => []
    case Some(v) => if v == "" then [] else StripAll(Split(v, ','))
  }

  /** Every item is stripped and holds no comma. */
  lemma SplitByCommaItems(value: Option<string>)
    ensures forall k :: 0 <= k < |SplitByComma(value)| ==>
      var item := SplitByComma(value)[k];
      Strip(item) == item && ',' !in item
  {
    if value.Some? && value.value != "" {
      var pieces := Split(value.value, ',');
      forall k | 0 <= k < |pieces|
        ensures Strip(Strip(pieces[k])) == Strip(pieces[k]) && ',' !in Strip(pieces[k])
      {
        StripIdempotent(pieces[k]);
        StripShape(pieces[k]);
        assert ',' !in pieces[k];
      }
    }
  }

  /** A value without white space around its commas is given back whole by
      joining the items with commas. */
  lemma SplitByCommaJoin(v: string)
    requires v != ""
    requires forall k :: 0 <= k < |Split(v, ',')| ==> Strip(Split(v, ',')[k]) == Split(v, ',')[k]
    ensures Join(SplitByComma(Some(v)), ',') == v
  {
    var pieces := Split(v, ',');
    assert SplitByComma(Some(v)) == pieces;
    SplitJoin(v, ',');
  }

  /** `get_item`: `dictionary.get(key, [])`. */
  function GetItem<K, V>(dictionary: map<K, seq<V>>, key: K): (r: seq<V>)
    ensures key in dictionary ==> r == dictionary[key]
    ensures key !in dictionary ==> r == []
  {
    if key in dictionary then dictionary[key] else []
  }

  /** Reading back a key just stored gives its value; other keys are unaffected. */
  lemma GetItemAfterUpdate<K, V>(dictionary: map<K, seq<V>>, key: K, value: seq<V>, other: K)
    ensures GetItem(dictionary[key := value], key) == value
    ensures other != key ==> GetItem(dictionary[key := value], other) == GetItem(dictionary, other)
  {
  }
}
