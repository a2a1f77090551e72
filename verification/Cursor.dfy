// internal/service/cursor.go: cursors as opaque strings. The base64 and JSON payload is a pair of
// functions; what matters is that a payload decodes to what was encoded and is never empty.
module Cursor {
  import opened Common
  import opened Ordering
  import opened Keyset

  datatype Codec<!K> = Codec(encode: K -> string, decode: string -> Option<K>)

  ghost predicate RoundTrips<K(!new)>(codec: Codec<K>) {
    forall k :: codec.encode(k) != "" && codec.decode(codec.encode(k)) == Some(k)
  }

  // A nil cursor is the empty string: no more pages, or start from the beginning.
  function EncodeCursor<K>(codec: Codec<K>, cursor: Option<K>): string {
    if cursor.None? then "" else codec.encode(cursor.value)
  }

  function DecodeCursor<K>(codec: Codec<K>, s: string): Result<Option<K>, Error> {
    if s == "" then Ok(None)
    else match codec.decode(s)
      case None => Err(ErrValidation)
      case Some(k) => Ok(Some(k))
  }

  lemma DecodeEncode<K(!new)>(codec: Codec<K>, cursor: Option<K>)
    requires RoundTrips(codec)
    ensures DecodeCursor(codec, EncodeCursor(codec, cursor)) == Ok(cursor)
    ensures EncodeCursor(codec, cursor) == "" <==> cursor.None?
  {
  }

  // What a client collects that passes each next cursor back verbatim and stops at the empty one.
  ghost function Followed<K(!new)>(codec: Codec<K>, calls: seq<Call<K>>, cursor: string, lt: (K, K) -> bool): seq<K>
    requires StrictTotalOrder(lt) && Valid(calls)
  {
    if |calls| == 0 || DecodeCursor(codec, cursor).Err? then []
    else
      var (page, next) := PageOf(calls[0].keys, DecodeCursor(codec, cursor).value, calls[0].limit, lt);
      page + if EncodeCursor(codec, next) == "" then [] else Followed(codec, calls[1..], EncodeCursor(codec, next), lt)
  }

  // The cursor string after the calls: empty once some call has answered with no next cursor.
  ghost function CursorAfter<K(!new)>(codec: Codec<K>, calls: seq<Call<K>>, cursor: string, lt: (K, K) -> bool): string
    requires StrictTotalOrder(lt) && Valid(calls)
  {
    if |calls| == 0 || DecodeCursor(codec, cursor).Err? then cursor
    else
      var next := EncodeCursor(codec, PageOf(calls[0].keys, DecodeCursor(codec, cursor).value, calls[0].limit, lt).1);
      if next == "" then "" else CursorAfter(codec, calls[1..], next, lt)
  }

  lemma FollowedUnfolds<K(!new)>(codec: Codec<K>, calls: seq<Call<K>>, cursor: string, lt: (K, K) -> bool)
    requires StrictTotalOrder(lt) && Valid(calls) && |calls| > 0 && DecodeCursor(codec, cursor).Ok?
    ensures var (page, next) := PageOf(calls[0].keys, DecodeCursor(codec, cursor).value, calls[0].limit, lt);
            var s := EncodeCursor(codec, next);
            && Followed(codec, calls, cursor, lt) == page + (if s == "" then [] else Followed(codec, calls[1..], s, lt))
            && CursorAfter(codec, calls, cursor, lt) == if s == "" then "" else CursorAfter(codec, calls[1..], s, lt)
  {
  }

  // Going through strings changes nothing.
  lemma {:induction false} FollowedIsReturned<K(!new)>(codec: Codec<K>, calls: seq<Call<K>>, cursor: Option<K>,
                                                       lt: (K, K) -> bool)
    requires RoundTrips(codec) && StrictTotalOrder(lt) && Valid(calls)
    ensures Followed(codec, calls, EncodeCursor(codec, cursor), lt) == Returned(calls, cursor, lt)
    ensures CursorAfter(codec, calls, EncodeCursor(codec, cursor), lt)
            == EncodeCursor(codec, Position(calls, cursor, lt))
  {
    DecodeEncode(codec, cursor);
    if |calls| > 0 {
      var next := PageOf(calls[0].keys, cursor, calls[0].limit, lt).1;
      DecodeEncode(codec, next);
      if next.Some? {
        FollowedIsReturned(codec, calls[1..], next, lt);
      }
    }
  }
}
