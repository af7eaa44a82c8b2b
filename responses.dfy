/** What the routes answer in place of raising HTTP exceptions. */
module Responses {

  /** A route's answer: the value it returns, or the error it raises.
      `NotFound` is the 404 for an unknown post id or tag slug; `Conflict` is the 400
      for a tag name whose slug is taken; `DeleteFailed` is the 400 raised when the
      deletion service answers False; `ServerError` is the 500 of an exception the route
      does not catch. */
  datatype Response<+T> = Success(value: T) | NotFound | Conflict | DeleteFailed | ServerError

  /** The one-entry JSON object a successful deletion returns. */
  datatype Message = Message(key: string, value: string)

  const SUCCESSFUL_DELETION_MESSAGE_KEY: string := "message"
  const SUCCESSFUL_DELETION_MESSAGE_VALUE_FOR_TAG: string := "The tag has been successfully deleted!"
  const SUCCESSFUL_DELETION_MESSAGE_VALUE_FOR_POST: string := "The post has been successfully deleted!"

  const TAG_DELETED: Message := Message(SUCCESSFUL_DELETION_MESSAGE_KEY, SUCCESSFUL_DELETION_MESSAGE_VALUE_FOR_TAG)
  const POST_DELETED: Message := Message(SUCCESSFUL_DELETION_MESSAGE_KEY, SUCCESSFUL_DELETION_MESSAGE_VALUE_FOR_POST)
}
