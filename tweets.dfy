/** The JSON objects the search and trends endpoints return, cut down to the
    fields that the query, statistics and menu code read. */
module Tweets {

  datatype Option<T> = None | Some(value: T)

  /** One element of a status's `entities.hashtags`; only `text` is read. */
  datatype Hashtag = Hashtag(text: string)

  /** One element of `entities.user_mentions`; `screen_name` may be absent. */
  datatype Mention = Mention(screenName: Option<string>)

  /** A tweet: its `text` and the two entity lists the statistics read. */
  datatype Status = Status(text: string, hashtags: seq<Hashtag>, mentions: seq<Mention>)

  /** One page of search results: `statuses` and, when the API has more,
      `search_metadata.next_results` (a URL query string such as `?max_id=...&q=...`). */
  datatype Page = Page(statuses: seq<Status>, nextResults: Option<string>)

  /** One trend; `tweet_volume` is null for trends without a count. */
  datatype Trend = Trend(name: string, volume: Option<int>)

  /** One element of the list the trends endpoint returns. */
  datatype Place = Place(trends: seq<Trend>)
}
