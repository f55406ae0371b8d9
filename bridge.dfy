/**
 * What the Discord bridges of both versions share: the chat command that asks
 * who is online, and the console command that repeats a Discord message in
 * the game chat.
 */
module Bridge {

  const ONLINE_COMMAND: string := "!online"

  /** The console command that repeats a Discord message in the game chat. */
  function SayCommand(author: string, content: string): string {
    "/say [" + author + "]: " + content + "\n"
  }
}
