/** The fixed names of CodePushConstants.swift. */
module Constants {
  const CodePushDefaultAppName: string := "CodePush"
  const CodePushServer: string := "codepush.azurewebsites.net"
  const StatusFileName: string := "codepush.json"
  const PackageFileName: string := "app.json"
  const ZipFileName: string := "download.zip"
  const DiffManifestFileName: string := "hotcodepush.json"
  const UnzippedFolderName: string := "unzipped"
}
