/** The user-facing texts of the bot, without the terminal colouring that wraps them on display. */
module MessageTexts {
  import Text

  const InputErrorMissingArgs: string := "Give me name and phone please."
  const InputErrorContactNotFound: string := "Contact not found."
  const InputErrorEnterName: string := "Enter user name."

  const UnknownCommand: string := "Unknown command. Try: hello, add, change, phone, all, close, exit"

  const HelloMessage: string := "How can I help you?"

  const NoContactsFound: string := "No contacts found."

  const InvalidNameFormat: string :=
    "Invalid name format. Use letters with optional spaces, hyphens, or apostrophes."
  const InvalidPhoneFormat: string :=
    "Invalid phone format. Use local number (10 digits, no spaces).\n"
    + "Examples: 0501234567 | 050-123-4567 | (050)123-4567"

  const ContactAdded: string := "Contact added."
  const ContactUpdated: string := "Contact updated."

  /** "Error: The command '{command}' does not accept arguments." */
  function UnexpectedArguments(command: string): string
  {
    "Error: The command '" + command + "' does not accept arguments."
  }

  /** "Invalid format for argument {arg_index}." */
  function InvalidArgumentFormat(argIndex: nat): string
  {
    "Invalid format for argument " + Text.NatToString(argIndex) + "."
  }

  /** "Phone number {phone} not found in record" */
  function PhoneNotFoundInRecord(phone: string): string
  {
    "Phone number " + phone + " not found in record"
  }
}
